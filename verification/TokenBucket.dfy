/** The limiter against a token bucket on whole numbers, which says when a call is granted. */
module TokenBucket {
  import opened RateLimiter

  /** Call by call, the whole tokens that the time since the call before is worth. */
  ghost predicate IsEarned(cfg: Config, calls: seq<Call>, earned: seq<nat>) {
    |earned| == |calls| && forall i :: 0 <= i < |calls| ==> Worth(cfg.rate, Gap(calls, i), earned[i])
  }

  /** The tokens in a bucket after `earned` more have come in: what does not fit is lost. */
  function Topped(held: nat, earned: nat, capacity: nat): nat {
    if earned == 0 then held else Least(held + earned, capacity)
  }

  /** The reference: the tokens held and the tokens granted after some calls. */
  function Reference(cfg: Config, calls: seq<Call>, earned: seq<nat>): (nat, nat)
    requires |earned| == |calls|
  {
    if calls == [] then (cfg.initial, 0)
    else
      var last := |calls| - 1;
      var (held, granted) := Reference(cfg, calls[..last], earned[..last]);
      var topped := Topped(held, earned[last], cfg.capacity);
      if calls[last].n <= topped then (topped - calls[last].n, granted + calls[last].n) else (topped, granted)
  }

  lemma ScaledLeast(held: nat, earned: nat, capacity: nat)
    ensures FilledUp(held * FP_SCALE, earned, capacity) == Topped(held, earned, capacity) * FP_SCALE
  {
  }

  lemma ScaledOrder(n: nat, tokens: nat)
    ensures n * FP_SCALE <= tokens * FP_SCALE <==> n <= tokens
    ensures n <= tokens ==> tokens * FP_SCALE - n * FP_SCALE == (tokens - n) * FP_SCALE
  {
  }

  /** One call on a bucket of whole tokens. */
  lemma CallOnWhole(cfg: Config, b: Bucket, call: Call, held: nat, earned: nat)
    requires InRange(cfg) && b.tokensFp == held * FP_SCALE <= Ceiling(cfg) && b.lastNs <= call.now
    requires Worth(cfg.rate, call.now - b.lastNs, earned)
    ensures var (b', ok) := TryAcquire(cfg, b, call);
            var topped := Topped(held, earned, cfg.capacity);
            && (ok <==> call.n <= topped)
            && b' == Bucket((topped - if ok then call.n else 0) * FP_SCALE, call.now)
  {
    CallIsDecided(cfg, b, call, earned);
    ScaledLeast(held, earned, cfg.capacity);
    ScaledOrder(call.n, Topped(held, earned, cfg.capacity));
  }

  lemma EarnedBefore(cfg: Config, calls: seq<Call>, earned: seq<nat>)
    requires calls != [] && IsEarned(cfg, calls, earned)
    ensures IsEarned(cfg, calls[..|calls| - 1], earned[..|calls| - 1])
  {
    var before := calls[..|calls| - 1];
    forall i | 0 <= i < |before| ensures Worth(cfg.rate, Gap(before, i), earned[..|before|][i]) {
      assert Gap(before, i) == Gap(calls, i);
    }
  }

  /**
   * Refinement: with capacity and initial tokens below 2^32 the fixed-point limiter is that bucket,
   * for calls of any size. Both grant the same and hold the same, and every bucket holds whole tokens.
   */
  lemma {:induction false} RefinesReference(cfg: Config, calls: seq<Call>, earned: seq<nat>)
    requires InRange(cfg) && TimesOrdered(calls) && IsEarned(cfg, calls, earned)
    ensures var (held, granted) := Reference(cfg, calls, earned);
            Run(cfg, calls) == (Bucket(held * FP_SCALE, LastTime(calls)), granted)
  {
    if calls != [] {
      var last := |calls| - 1;
      var before := calls[..last];
      EarnedBefore(cfg, calls, earned);
      RefinesReference(cfg, before, earned[..last]);
      RunState(cfg, before);
      var (b, granted) := Run(cfg, before);
      assert Gap(calls, last) == calls[last].now - b.lastNs;
      CallOnWhole(cfg, b, calls[last], Reference(cfg, before, earned[..last]).0, earned[last]);
    }
  }

  /** Every sequence of calls earns something at each of them. */
  lemma {:induction false} EarnedExists(cfg: Config, calls: seq<Call>) returns (earned: seq<nat>)
    requires InRange(cfg) && TimesOrdered(calls)
    ensures IsEarned(cfg, calls, earned)
  {
    earned := [];
    if calls != [] {
      var last := |calls| - 1;
      var before := EarnedExists(cfg, calls[..last]);
      var gap := Gap(calls, last);
      AccruedNonNegative(cfg.rate, gap);
      var e := Accrued(cfg.rate, gap).Floor;
      WorthIs(cfg.rate, gap, e);
      earned := before + [e];
      forall i | 0 <= i < last ensures Worth(cfg.rate, Gap(calls, i), earned[i]) {
        assert Gap(calls[..last], i) == Gap(calls, i) && earned[i] == before[i];
      }
    }
  }

  /**
   * A call is granted if and only if the whole tokens held before it, with those that the time
   * since the call before is worth, up to the capacity, are enough.
   */
  lemma GrantedIff(cfg: Config, calls: seq<Call>, call: Call, e: nat) returns (held: nat)
    requires InRange(cfg) && TimesOrdered(calls) && LastTime(calls) <= call.now
    requires Worth(cfg.rate, call.now - LastTime(calls), e)
    ensures Run(cfg, calls).0.tokensFp == held * FP_SCALE
    ensures TryAcquire(cfg, Run(cfg, calls).0, call).1 <==>
            call.n <= if e == 0 then held else if held + e <= cfg.capacity then held + e else cfg.capacity
  {
    var earned := EarnedExists(cfg, calls);
    RefinesReference(cfg, calls, earned);
    RunState(cfg, calls);
    held := Reference(cfg, calls, earned).0;
    CallOnWhole(cfg, Run(cfg, calls).0, call, held, e);
  }

  /** Away from the capacity: if and only if what came in, less what was granted before, is enough. */
  lemma UnclampedGrantedIff(cfg: Config, calls: seq<Call>, call: Call, e: nat)
    requires InRange(cfg) && TimesOrdered(calls) && LastTime(calls) <= call.now && NeverClamped(cfg, calls + [call])
    requires Worth(cfg.rate, call.now - LastTime(calls), e)
    ensures TryAcquire(cfg, Run(cfg, calls).0, call).1 <==>
            cfg.initial + EarnedInAll(cfg, calls) + e - Run(cfg, calls).1 >= call.n
  {
    var longer := calls + [call];
    assert longer[..|calls|] == calls;
    assert Gap(longer, |calls|) == call.now - LastTime(calls);
    WorthIs(cfg.rate, Gap(longer, |calls|), e);
    assert Earned(cfg, longer, |calls|) == e;
    FractionsAreLost(cfg, calls);
    var held := GrantedIff(cfg, calls, call, e);
    var granted, earned := Run(cfg, calls).1, EarnedInAll(cfg, calls);
    assert held == cfg.initial + earned - granted by {
      assert granted * FP_SCALE + held * FP_SCALE == (cfg.initial + earned) * FP_SCALE;
    }
  }
}
