/** The token-bucket rate limiter, with tokens in fixed point (32 fractional bits). */
module RateLimiter {
  import opened Wrappers
  import opened RealFacts

  const FP_SCALE: nat := 0x1_0000_0000

  datatype Config = Config(capacity: u64, rate: real, initial: u64)

  datatype Bucket = Bucket(tokensFp: nat, lastNs: nat)

  datatype Call = Call(n: u64, now: nat)

  function SaturatingMul(a: nat, b: nat): nat {
    if a * b > U64_MAX then U64_MAX else a * b
  }

  function SaturatingAdd(a: nat, b: nat): nat {
    if a + b > U64_MAX then U64_MAX else a + b
  }

  function Least(a: nat, b: nat): nat {
    if a <= b then a else b
  }

  function Largest(a: nat, b: nat): nat {
    if a >= b then a else b
  }

  /** The saturating cast from a float to an unsigned integer. */
  function ToU64(x: real): (n: nat)
    ensures x >= 0.0 ==> n as real <= x
    ensures n <= U64_MAX
    ensures n > 0 <==> x >= 1.0
  {
    if x < 0.0 then 0 else if x >= U64_MAX as real then U64_MAX else x.Floor
  }

  /** The tokens that `ns` nanoseconds are worth. */
  function Accrued(rate: real, ns: int): real {
    rate * (ns as real / 1000000000.0)
  }

  /** The whole tokens that a refill at `now` adds. */
  function Credit(cfg: Config, lastNs: nat, now: nat): nat {
    if now <= lastNs then 0 else ToU64(Accrued(cfg.rate, now - lastNs))
  }

  function Refill(cfg: Config, b: Bucket, now: nat): Bucket {
    var credit := Credit(cfg, b.lastNs, now);
    if credit == 0 then b.(lastNs := now)
    else
      Bucket(Least(SaturatingAdd(b.tokensFp, SaturatingMul(credit, FP_SCALE)), SaturatingMul(cfg.capacity, FP_SCALE)),
             now)
  }

  function TryAcquire(cfg: Config, b: Bucket, call: Call): (Bucket, bool) {
    var filled := Refill(cfg, b, call.now);
    var needed := SaturatingMul(call.n, FP_SCALE);
    if filled.tokensFp < needed then (filled, false)
    else (filled.(tokensFp := filled.tokensFp - needed), true)
  }

  function New(cfg: Config): Bucket {
    Bucket(SaturatingMul(cfg.initial, FP_SCALE), 0)
  }

  /** The bucket and the number of tokens granted after a sequence of calls. */
  function Run(cfg: Config, calls: seq<Call>): (Bucket, nat) {
    if calls == [] then (New(cfg), 0)
    else
      var (b, granted) := Run(cfg, calls[..|calls| - 1]);
      var call := calls[|calls| - 1];
      var (b', ok) := TryAcquire(cfg, b, call);
      (b', if ok then granted + call.n else granted)
  }

  /** The clock read by the last call; the limiter starts at time 0. */
  function LastTime(calls: seq<Call>): nat {
    if calls == [] then 0 else calls[|calls| - 1].now
  }

  predicate TimesOrdered(calls: seq<Call>) {
    calls == [] ||
    (TimesOrdered(calls[..|calls| - 1]) && LastTime(calls[..|calls| - 1]) <= calls[|calls| - 1].now)
  }

  /** Capacity and initial tokens fit into the 32 integer bits of the fixed point. */
  predicate InRange(cfg: Config) {
    cfg.capacity < FP_SCALE && cfg.initial < FP_SCALE && cfg.rate >= 0.0
  }

  /** What a limiter with this configuration never holds more than. */
  function Ceiling(cfg: Config): nat {
    Largest(cfg.capacity, cfg.initial) * FP_SCALE
  }

  // ---------- One call ----------

  lemma AccruedAdds(rate: real, a: int, b: int)
    ensures Accrued(rate, a + b) == Accrued(rate, a) + Accrued(rate, b)
  {
    assert (a + b) as real / 1000000000.0 == a as real / 1000000000.0 + b as real / 1000000000.0;
  }

  lemma AccruedNonNegative(rate: real, ns: nat)
    requires rate >= 0.0
    ensures Accrued(rate, ns) >= 0.0
  {
    MulNonNegative(rate, ns as real / 1000000000.0);
  }

  /** A refill adds no more than the elapsed time is worth, and respects the ceiling. */
  lemma RefillBound(cfg: Config, b: Bucket, now: nat)
    requires InRange(cfg) && b.tokensFp <= Ceiling(cfg) && b.lastNs <= now
    ensures var b' := Refill(cfg, b, now);
            && b'.lastNs == now && b'.tokensFp <= Ceiling(cfg)
            && b'.tokensFp as real <= b.tokensFp as real + Accrued(cfg.rate, now - b.lastNs) * 4294967296.0
  {
    AccruedNonNegative(cfg.rate, now - b.lastNs);
  }

  /** Within the ceiling a grant takes its full price. */
  lemma GrantCosts(cfg: Config, b: Bucket, call: Call)
    requires InRange(cfg) && Refill(cfg, b, call.now).tokensFp <= Ceiling(cfg)
    ensures var (b', ok) := TryAcquire(cfg, b, call);
            b'.tokensFp + (if ok then call.n * FP_SCALE else 0) == Refill(cfg, b, call.now).tokensFp
  {
    assert Ceiling(cfg) < U64_MAX;
  }

  /**
   * A granted call is paid for in full exactly when its price fits into 64 bits: from 2^32
   * tokens on the price saturates.
   */
  lemma PaidInFullIff(cfg: Config, b: Bucket, call: Call)
    requires TryAcquire(cfg, b, call).1
    ensures TryAcquire(cfg, b, call).0.tokensFp + call.n * FP_SCALE == Refill(cfg, b, call.now).tokensFp
            <==> call.n < FP_SCALE
  {
  }

  lemma CallBound(cfg: Config, b: Bucket, call: Call)
    requires InRange(cfg) && b.tokensFp <= Ceiling(cfg) && b.lastNs <= call.now
    ensures var (b', ok) := TryAcquire(cfg, b, call);
            && b'.lastNs == call.now && b'.tokensFp <= Ceiling(cfg)
            && b'.tokensFp as real + (if ok then (call.n * FP_SCALE) as real else 0.0)
               <= b.tokensFp as real + Accrued(cfg.rate, call.now - b.lastNs) * 4294967296.0
  {
    RefillBound(cfg, b, call.now);
    GrantCosts(cfg, b, call);
  }

  // ---------- One call, in tokens ----------

  /** At this rate, tokens per second, `ns` nanoseconds earn `e` whole tokens. */
  predicate Worth(rate: real, ns: int, e: nat) {
    e as real * 1000000000.0 <= rate * ns as real < (e as real + 1.0) * 1000000000.0
  }

  lemma WorthIs(rate: real, ns: nat, e: nat)
    ensures Worth(rate, ns, e) <==> e as real <= Accrued(rate, ns) < e as real + 1.0
  {
    var x := ns as real / 1000000000.0;
    assert rate * ns as real == rate * x * 1000000000.0 == Accrued(rate, ns) * 1000000000.0;
  }

  lemma CreditIs(cfg: Config, lastNs: nat, now: nat, e: nat)
    requires lastNs <= now && Worth(cfg.rate, now - lastNs, e)
    ensures Credit(cfg, lastNs, now) == if e > U64_MAX then U64_MAX else e
  {
    WorthIs(cfg.rate, now - lastNs, e);
    if now == lastNs {
      assert Accrued(cfg.rate, 0) == 0.0;
    }
  }

  /** The units in a bucket that earns `e` tokens: nothing changes without a whole one, and the capacity cuts off. */
  function FilledUp(tokensFp: nat, e: nat, capacity: nat): nat {
    if e == 0 then tokensFp else Least(tokensFp + e * FP_SCALE, capacity * FP_SCALE)
  }

  lemma TopUp(tokensFp: nat, e: nat, capacity: nat)
    requires tokensFp < U64_MAX && capacity < FP_SCALE
    ensures var credit := if e > U64_MAX then U64_MAX else e;
            Least(SaturatingAdd(tokensFp, SaturatingMul(credit, FP_SCALE)), SaturatingMul(capacity, FP_SCALE))
            == Least(tokensFp + e * FP_SCALE, capacity * FP_SCALE)
  {
  }

  /** A refill adds the whole tokens of the elapsed time, up to exactly the capacity. */
  lemma RefillIs(cfg: Config, b: Bucket, now: nat, e: nat)
    requires InRange(cfg) && b.tokensFp <= Ceiling(cfg) && b.lastNs <= now && Worth(cfg.rate, now - b.lastNs, e)
    ensures Refill(cfg, b, now) == Bucket(FilledUp(b.tokensFp, e, cfg.capacity), now)
    ensures Refill(cfg, b, now).tokensFp <= Ceiling(cfg)
  {
    CreditIs(cfg, b.lastNs, now, e);
    TopUp(b.tokensFp, e, cfg.capacity);
  }

  /** What a call for `n` tokens decides and leaves, from what there was and what it earns itself. */
  predicate Decided(tokensFp: nat, e: nat, capacity: nat, n: nat, ok: bool, after: nat) {
    var filled := FilledUp(tokensFp, e, capacity);
    (ok <==> n * FP_SCALE <= filled) && after == filled - if ok then n * FP_SCALE else 0
  }

  lemma CallIsDecided(cfg: Config, b: Bucket, call: Call, e: nat)
    requires InRange(cfg) && b.tokensFp <= Ceiling(cfg) && b.lastNs <= call.now
    requires Worth(cfg.rate, call.now - b.lastNs, e)
    ensures var (b', ok) := TryAcquire(cfg, b, call);
            && b'.lastNs == call.now && b'.tokensFp <= Ceiling(cfg)
            && Decided(b.tokensFp, e, cfg.capacity, call.n, ok, b'.tokensFp)
  {
    RefillIs(cfg, b, call.now, e);
    PriceIs(call.n, Refill(cfg, b, call.now).tokensFp);
  }

  lemma CallIsDecidedByAll(cfg: Config, b: Bucket, call: Call)
    ensures InRange(cfg) && b.tokensFp <= Ceiling(cfg) && b.lastNs <= call.now ==>
              forall e: nat :: Worth(cfg.rate, call.now - b.lastNs, e) ==>
                Decided(b.tokensFp, e, cfg.capacity, call.n,
                        TryAcquire(cfg, b, call).1, TryAcquire(cfg, b, call).0.tokensFp)
  {
    forall e: nat | InRange(cfg) && b.tokensFp <= Ceiling(cfg) && b.lastNs <= call.now
                    && Worth(cfg.rate, call.now - b.lastNs, e)
      ensures Decided(b.tokensFp, e, cfg.capacity, call.n,
                      TryAcquire(cfg, b, call).1, TryAcquire(cfg, b, call).0.tokensFp)
    {
      CallIsDecided(cfg, b, call, e);
    }
  }

  lemma PriceIs(n: nat, tokensFp: nat)
    requires tokensFp < U64_MAX
    ensures SaturatingMul(n, FP_SCALE) <= tokensFp <==> n * FP_SCALE <= tokensFp
    ensures n * FP_SCALE <= tokensFp ==> SaturatingMul(n, FP_SCALE) == n * FP_SCALE
  {
  }

  // ---------- Whole runs ----------

  lemma {:induction false} RunState(cfg: Config, calls: seq<Call>)
    requires InRange(cfg) && TimesOrdered(calls)
    ensures Run(cfg, calls).0.lastNs == LastTime(calls)
    ensures Run(cfg, calls).0.tokensFp <= Ceiling(cfg)
  {
    if calls != [] {
      RunState(cfg, calls[..|calls| - 1]);
      CallBound(cfg, Run(cfg, calls[..|calls| - 1]).0, calls[|calls| - 1]);
    }
  }

  /** What was spent and is left now does not exceed what was held `elapsed` ago and came in since. */
  ghost predicate Supplied(cfg: Config, held: nat, left: nat, spent: int, elapsed: int) {
    (spent * FP_SCALE) as real + left as real <= held as real + Accrued(cfg.rate, elapsed) * 4294967296.0
  }

  /** One more call keeps the books of grants since some moment balanced. */
  lemma SupplyStep(cfg: Config, held: nat, b: Bucket, spent: nat, elapsed: int, call: Call)
    requires InRange(cfg) && b.tokensFp <= Ceiling(cfg) && b.lastNs <= call.now
    requires Supplied(cfg, held, b.tokensFp, spent, elapsed)
    ensures var (b', ok) := TryAcquire(cfg, b, call);
            Supplied(cfg, held, b'.tokensFp, if ok then spent + call.n else spent, elapsed + (call.now - b.lastNs))
  {
    CallBound(cfg, b, call);
    AccruedAdds(cfg.rate, elapsed, call.now - b.lastNs);
  }

  /** From call `j` on, tokens granted and held exceed those held then by at most what time adds. */
  lemma {:induction false} SupplyFrom(cfg: Config, calls: seq<Call>, j: nat)
    requires InRange(cfg) && TimesOrdered(calls) && j <= |calls|
    ensures Run(cfg, calls[..j]).1 <= Run(cfg, calls).1
    ensures Supplied(cfg, Run(cfg, calls[..j]).0.tokensFp, Run(cfg, calls).0.tokensFp,
                     Run(cfg, calls).1 - Run(cfg, calls[..j]).1, LastTime(calls) - LastTime(calls[..j]))
  {
    if j == |calls| {
      assert calls[..j] == calls;
      AccruedNonNegative(cfg.rate, 0);
    } else {
      var before := calls[..|calls| - 1];
      SupplyFrom(cfg, before, j);
      assert before[..j] == calls[..j];
      RunState(cfg, before);
      SupplyStep(cfg, Run(cfg, calls[..j]).0.tokensFp, Run(cfg, before).0,
                 Run(cfg, before).1 - Run(cfg, calls[..j]).1,
                 LastTime(before) - LastTime(calls[..j]), calls[|calls| - 1]);
    }
  }

  /**
   * Supply bound: with nondecreasing clock reads, the tokens granted up to time T plus the
   * tokens left never exceed the initial ones plus rate * T.
   */
  lemma SupplyBound(cfg: Config, calls: seq<Call>)
    requires InRange(cfg) && TimesOrdered(calls)
    ensures var (b, granted) := Run(cfg, calls);
            granted as real + b.tokensFp as real / 4294967296.0
            <= cfg.initial as real + Accrued(cfg.rate, LastTime(calls))
  {
    SupplyFrom(cfg, calls, 0);
    assert calls[..0] == [];
  }

  /** A call at time s leaves, with what it grants, no more than the ceiling. */
  lemma GrantFromCeiling(cfg: Config, b: Bucket, call: Call)
    requires InRange(cfg) && b.tokensFp <= Ceiling(cfg) && b.lastNs <= call.now
    ensures var (b', ok) := TryAcquire(cfg, b, call);
            b'.tokensFp + (if ok then call.n * FP_SCALE else 0) <= Ceiling(cfg)
  {
    RefillBound(cfg, b, call.now);
    GrantCosts(cfg, b, call);
  }

  /** The first call of the window: none for the window that starts with the limiter. */
  function WindowStart(j: nat): nat {
    if j == 0 then 0 else j - 1
  }

  lemma FirstOfWindow(cfg: Config, calls: seq<Call>, j: nat)
    requires InRange(cfg) && TimesOrdered(calls) && j <= |calls|
    ensures (Run(cfg, calls[..j]).1 - Run(cfg, calls[..WindowStart(j)]).1) * FP_SCALE
            + Run(cfg, calls[..j]).0.tokensFp <= Ceiling(cfg)
  {
    PrefixOrdered(calls, j);
    if j == 0 {
      RunState(cfg, calls[..j]);
    } else {
      var upTo := calls[..j];
      assert upTo[..j - 1] == calls[..j - 1] && upTo[j - 1] == calls[j - 1];
      PrefixOrdered(calls, j - 1);
      RunState(cfg, calls[..j - 1]);
      GrantFromCeiling(cfg, Run(cfg, calls[..j - 1]).0, calls[j - 1]);
    }
  }

  /**
   * Window bound: from the time s of one call to the time t of a later one, both calls' own
   * grants included, no more than max(capacity, initial) + rate * (t - s) tokens are granted.
   */
  lemma WindowBound(cfg: Config, calls: seq<Call>, j: nat)
    requires InRange(cfg) && TimesOrdered(calls) && j <= |calls|
    ensures Run(cfg, calls).1 as real - Run(cfg, calls[..WindowStart(j)]).1 as real
            <= Largest(cfg.capacity, cfg.initial) as real
               + Accrued(cfg.rate, LastTime(calls) - LastTime(calls[..j]))
  {
    SupplyFrom(cfg, calls, j);
    FirstOfWindow(cfg, calls, j);
    WindowArithmetic(Run(cfg, calls).1, Run(cfg, calls[..j]).1, Run(cfg, calls[..WindowStart(j)]).1,
                     Run(cfg, calls[..j]).0.tokensFp, Largest(cfg.capacity, cfg.initial),
                     Accrued(cfg.rate, LastTime(calls) - LastTime(calls[..j])));
  }

  lemma WindowArithmetic(all: nat, upTo: nat, before: nat, held: nat, ceiling: nat, earned: real)
    requires ((all - upTo) * FP_SCALE) as real <= held as real + earned * 4294967296.0
    requires (upTo - before) * FP_SCALE + held <= ceiling * FP_SCALE
    ensures all as real - before as real <= ceiling as real + earned
  {
    assert ((all - before) * FP_SCALE) as real <= (ceiling * FP_SCALE) as real + earned * 4294967296.0;
  }

  // ---------- Polling ----------

  /** The time since the call before call `i`. */
  function Gap(calls: seq<Call>, i: nat): int
    requires i < |calls|
  {
    if i == 0 then calls[0].now else calls[i].now - calls[i - 1].now
  }

  ghost predicate SomeGapEarns(cfg: Config, calls: seq<Call>) {
    exists i :: 0 <= i < |calls| && Accrued(cfg.rate, Gap(calls, i)) >= 1.0
  }

  /**
   * Fractions of a token are discarded at every call, so a limiter that is polled too often
   * earns nothing however much time passes.
   */
  lemma {:induction false} PollingStarves(cfg: Config, calls: seq<Call>)
    requires InRange(cfg) && TimesOrdered(calls) && !SomeGapEarns(cfg, calls)
    ensures Run(cfg, calls).1 * FP_SCALE + Run(cfg, calls).0.tokensFp == cfg.initial * FP_SCALE
  {
    if calls != [] {
      var before, call := calls[..|calls| - 1], calls[|calls| - 1];
      forall i | 0 <= i < |before| ensures Accrued(cfg.rate, Gap(before, i)) < 1.0 {
        assert Gap(before, i) == Gap(calls, i);
      }
      PollingStarves(cfg, before);
      RunState(cfg, before);
      var b := Run(cfg, before).0;
      assert Gap(calls, |calls| - 1) == call.now - b.lastNs;
      assert Credit(cfg, b.lastNs, call.now) == 0;
      GrantCosts(cfg, b, call);
    }
  }

  lemma {:induction false} GrantsOnlyGrow(cfg: Config, calls: seq<Call>, j: nat)
    requires j <= |calls|
    ensures Run(cfg, calls[..j]).1 <= Run(cfg, calls).1
  {
    if j == |calls| {
      assert calls[..j] == calls;
    } else {
      GrantsOnlyGrow(cfg, calls[..|calls| - 1], j);
      assert calls[..|calls| - 1][..j] == calls[..j];
    }
  }

  lemma EarningGapGrants(cfg: Config, b: Bucket, call: Call)
    requires InRange(cfg) && cfg.capacity > 0 && call.n == 1 && b.lastNs <= call.now
    requires Accrued(cfg.rate, call.now - b.lastNs) >= 1.0
    ensures TryAcquire(cfg, b, call).1
  {
    assert call.now != b.lastNs by {
      assert Accrued(cfg.rate, 0) == 0.0;
    }
    assert Credit(cfg, b.lastNs, call.now) >= 1;
  }

  lemma EarningCallIsGranted(cfg: Config, calls: seq<Call>, i: nat)
    requires InRange(cfg) && TimesOrdered(calls) && cfg.capacity > 0
    requires i < |calls| && calls[i].n == 1 && Accrued(cfg.rate, Gap(calls, i)) >= 1.0
    ensures Run(cfg, calls[..i + 1]).1 > 0
  {
    var upTo := calls[..i + 1];
    assert upTo[..i] == calls[..i];
    PrefixOrdered(calls, i);
    PrefixOrdered(calls, i + 1);
    RunState(cfg, calls[..i]);
    EarningGapGrants(cfg, Run(cfg, calls[..i]).0, calls[i]);
  }

  /**
   * Polling an empty limiter for single tokens succeeds if and only if some two consecutive
   * calls are far enough apart to earn a whole token.
   */
  lemma PollingSucceedsIff(cfg: Config, calls: seq<Call>)
    requires InRange(cfg) && TimesOrdered(calls) && cfg.initial == 0 && cfg.capacity > 0
    requires forall i :: 0 <= i < |calls| ==> calls[i].n == 1
    ensures Run(cfg, calls).1 > 0 <==> SomeGapEarns(cfg, calls)
  {
    if SomeGapEarns(cfg, calls) {
      var i :| 0 <= i < |calls| && Accrued(cfg.rate, Gap(calls, i)) >= 1.0;
      EarningCallIsGranted(cfg, calls, i);
      GrantsOnlyGrow(cfg, calls, i + 1);
    } else {
      PollingStarves(cfg, calls);
    }
  }

  lemma {:induction false} PrefixOrdered(calls: seq<Call>, j: nat)
    requires TimesOrdered(calls) && j <= |calls|
    ensures TimesOrdered(calls[..j])
  {
    if j < |calls| {
      PrefixOrdered(calls[..|calls| - 1], j);
      assert calls[..|calls| - 1][..j] == calls[..j];
    } else {
      assert calls[..j] == calls;
    }
  }

  // ---------- What refills earn ----------

  /** The whole tokens that the gap before call `i` is worth. */
  function Earned(cfg: Config, calls: seq<Call>, i: nat): int
    requires i < |calls|
  {
    Accrued(cfg.rate, Gap(calls, i)).Floor
  }

  function EarnedInAll(cfg: Config, calls: seq<Call>): int {
    if calls == [] then 0
    else EarnedInAll(cfg, calls[..|calls| - 1]) + Earned(cfg, calls, |calls| - 1)
  }

  /** No refill so far was cut off at the capacity. */
  predicate NeverClamped(cfg: Config, calls: seq<Call>) {
    calls == [] ||
    (var before := calls[..|calls| - 1];
     var held, earned := Run(cfg, before).0.tokensFp, Earned(cfg, calls, |calls| - 1);
     NeverClamped(cfg, before) && (earned > 0 ==> held + earned * FP_SCALE <= cfg.capacity * FP_SCALE))
  }

  /** A refill that is not cut off adds exactly the whole tokens earned. */
  lemma RefillEarns(cfg: Config, b: Bucket, now: nat)
    requires InRange(cfg) && b.lastNs <= now
    requires var earned := Accrued(cfg.rate, now - b.lastNs).Floor;
             earned > 0 ==> b.tokensFp + earned * FP_SCALE <= cfg.capacity * FP_SCALE
    ensures Refill(cfg, b, now).tokensFp == b.tokensFp + Accrued(cfg.rate, now - b.lastNs).Floor * FP_SCALE
  {
    AccruedNonNegative(cfg.rate, now - b.lastNs);
    if now == b.lastNs {
      assert Accrued(cfg.rate, 0) == 0.0;
    }
    assert Credit(cfg, b.lastNs, now) == Accrued(cfg.rate, now - b.lastNs).Floor;
  }

  lemma EarnedBounds(cfg: Config, before: seq<Call>, calls: seq<Call>)
    requires calls != [] && before == calls[..|calls| - 1] && TimesOrdered(calls)
    ensures Accrued(cfg.rate, LastTime(calls)) == Accrued(cfg.rate, LastTime(before)) + Accrued(cfg.rate, Gap(calls, |calls| - 1))
  {
    AccruedAdds(cfg.rate, LastTime(before), Gap(calls, |calls| - 1));
  }

  /**
   * Away from the capacity a run is exactly accounted for: granted and held tokens are the
   * initial ones plus, for every call, the whole tokens of the gap before it. The fractions are
   * lost: less than one token per call.
   */
  lemma {:induction false} FractionsAreLost(cfg: Config, calls: seq<Call>)
    requires InRange(cfg) && TimesOrdered(calls) && NeverClamped(cfg, calls)
    ensures Run(cfg, calls).1 * FP_SCALE + Run(cfg, calls).0.tokensFp
            == (cfg.initial + EarnedInAll(cfg, calls)) * FP_SCALE
    ensures EarnedInAll(cfg, calls) as real <= Accrued(cfg.rate, LastTime(calls))
    ensures calls != [] ==> Accrued(cfg.rate, LastTime(calls)) < EarnedInAll(cfg, calls) as real + |calls| as real
  {
    if calls == [] {
      assert Accrued(cfg.rate, 0) == 0.0;
    } else {
      var before, call := calls[..|calls| - 1], calls[|calls| - 1];
      FractionsAreLost(cfg, before);
      RunState(cfg, before);
      var b := Run(cfg, before).0;
      assert Gap(calls, |calls| - 1) == call.now - b.lastNs;
      RefillEarns(cfg, b, call.now);
      RefillBound(cfg, b, call.now);
      GrantCosts(cfg, b, call);
      EarnedBounds(cfg, before, calls);
      assert before == [] ==> Accrued(cfg.rate, LastTime(before)) == 0.0;
    }
  }

  // ---------- The class ----------

  /** The limiter as the source writes it, each call running on its own and told the time. */
  class RateLimiter {
    const config: Config
    var tokensFp: nat
    var lastUpdateNs: nat
    var acquiredCount: nat
    var rejectedCount: nat

    ghost function View(): Bucket
      reads this
    {
      Bucket(tokensFp, lastUpdateNs)
    }

    constructor (config: Config)
      ensures this.config == config && View() == New(config) && acquiredCount == rejectedCount == 0
    {
      this.config := config;
      tokensFp := SaturatingMul(config.initial, FP_SCALE);
      lastUpdateNs, acquiredCount, rejectedCount := 0, 0, 0;
    }

    method RefillTokens(nowNs: nat)
      modifies this`tokensFp, this`lastUpdateNs
      ensures View() == Refill(config, old(View()), nowNs)
    {
      var lastNs := lastUpdateNs;
      lastUpdateNs := nowNs;
      if nowNs <= lastNs {
        return;
      }
      var tokensToAdd := ToU64(Accrued(config.rate, nowNs - lastNs));
      if tokensToAdd == 0 {
        return;
      }
      var tokensToAddFp := SaturatingMul(tokensToAdd, FP_SCALE);
      var maxTokensFp := SaturatingMul(config.capacity, FP_SCALE);
      tokensFp := Least(SaturatingAdd(tokensFp, tokensToAddFp), maxTokensFp);
    }

    /** The exchange may fail spuriously, as often as the caller says. */
    method TryAcquireN(n: u64, nowNs: nat, spurious: nat) returns (ok: bool)
      modifies this
      ensures (View(), ok) == TryAcquire(config, old(View()), Call(n, nowNs))
      ensures acquiredCount == old(acquiredCount) + if ok then 1 else 0
      ensures rejectedCount == old(rejectedCount) + if ok then 0 else 1
      ensures InRange(config) && old(tokensFp) <= Ceiling(config) && old(lastUpdateNs) <= nowNs ==>
                forall e: nat :: Worth(config.rate, nowNs - old(lastUpdateNs), e) ==>
                  Decided(old(tokensFp), e, config.capacity, n, ok, tokensFp)
    {
      CallIsDecidedByAll(config, View(), Call(n, nowNs));
      RefillTokens(nowNs);
      var neededFp := SaturatingMul(n, FP_SCALE);
      var failures := spurious;
      ghost var filled := View();
      while true
        invariant View() == filled
        invariant acquiredCount == old(acquiredCount) && rejectedCount == old(rejectedCount)
        decreases failures
      {
        var current := tokensFp;
        if current < neededFp {
          rejectedCount := rejectedCount + 1;
          return false;
        }
        if failures == 0 {
          tokensFp := current - neededFp;
          acquiredCount := acquiredCount + 1;
          return true;
        }
        failures := failures - 1;
      }
    }

    /** The clock keeps running over a reset, so the time since creation is credited again. */
    method Reset()
      modifies this
      ensures View() == New(config) && acquiredCount == rejectedCount == 0
    {
      tokensFp := SaturatingMul(config.initial, FP_SCALE);
      lastUpdateNs, acquiredCount, rejectedCount := 0, 0, 0;
    }
  }
}
