/** Any number of threads acquiring from one limiter, one atomic access per step. There is no reset. */
module RateLimiterConcurrent {
  import opened Wrappers
  import opened Bits
  import opened Sums
  import opened RateLimiter

  datatype Pc =
    | ReadClock
    | Swap(now: nat)
    | Add(credit: nat)
    | Load
    | Cas(current: u64)
    | Granted
    | Rejected

  datatype Thread = Thread(n: u64, pc: Pc)

  /**
   * `credited`, `added`, `discarded` and `backward` are histories: whole tokens computed by
   * refills, their fixed-point value once added, what clamping threw away, and how far swaps
   * have moved the update time back.
   */
  datatype State = State(
    tokensFp: u64, lastNs: nat, clock: nat, threads: seq<Thread>,
    credited: nat, added: nat, discarded: nat, backward: nat)

  datatype Action = Tick(ns: nat) | Start(n: u64) | Advance(thread: nat, spurious: bool)

  function Init(cfg: Config): State {
    State(New(cfg).tokensFp, 0, 0, [], 0, 0, 0, 0)
  }

  predicate Enabled(s: State, a: Action) {
    match a
    case Tick(_) => true
    case Start(_) => true
    case Advance(i, _) => i < |s.threads| && !s.threads[i].pc.Granted? && !s.threads[i].pc.Rejected?
  }

  function Price(t: Thread): nat {
    SaturatingMul(t.n, FP_SCALE)
  }

  /** The atomic update of the tokens that ends a refill. */
  function Topped(cfg: Config, tokensFp: nat, credit: nat): (r: nat)
    ensures r <= tokensFp + credit * FP_SCALE
    ensures r <= SaturatingMul(cfg.capacity, FP_SCALE)
  {
    Least(SaturatingAdd(tokensFp, SaturatingMul(credit, FP_SCALE)), SaturatingMul(cfg.capacity, FP_SCALE))
  }

  function MoveTo(s: State, i: nat, pc: Pc): seq<Thread>
    requires i < |s.threads|
  {
    s.threads[i := s.threads[i].(pc := pc)]
  }

  function StepThread(cfg: Config, s: State, i: nat, spurious: bool): State
    requires Enabled(s, Advance(i, spurious))
  {
    var t := s.threads[i];
    match t.pc
    case ReadClock => s.(threads := MoveTo(s, i, Swap(s.clock)))
    case Swap(now) =>
      var credit := Credit(cfg, s.lastNs, now);
      s.(lastNs := now, threads := MoveTo(s, i, if credit == 0 then Load else Add(credit)),
         credited := s.credited + credit, backward := s.backward + if now < s.lastNs then s.lastNs - now else 0)
    case Add(credit) =>
      var topped := Topped(cfg, s.tokensFp, credit);
      s.(tokensFp := topped, threads := MoveTo(s, i, Load), added := s.added + credit * FP_SCALE,
         discarded := s.discarded + (s.tokensFp + credit * FP_SCALE - topped))
    case Load => s.(threads := MoveTo(s, i, if s.tokensFp < Price(t) then Rejected else Cas(s.tokensFp)))
    case Cas(current) =>
      if s.tokensFp == current && !spurious then
        s.(tokensFp := WrappingSub(current, Price(t)), threads := MoveTo(s, i, Granted))
      else s.(threads := MoveTo(s, i, Load))
  }

  function Step(cfg: Config, s: State, a: Action): State
    requires Enabled(s, a)
  {
    match a
    case Tick(ns) => s.(clock := s.clock + ns)
    case Start(n) => s.(threads := s.threads + [Thread(n, ReadClock)])
    case Advance(i, spurious) => StepThread(cfg, s, i, spurious)
  }

  predicate IsSchedule(cfg: Config, schedule: seq<Action>)
    decreases |schedule|, 1
  {
    schedule == [] ||
    (IsSchedule(cfg, schedule[..|schedule| - 1]) &&
     Enabled(After(cfg, schedule[..|schedule| - 1]), schedule[|schedule| - 1]))
  }

  function After(cfg: Config, schedule: seq<Action>): State
    requires IsSchedule(cfg, schedule)
    decreases |schedule|, 2
  {
    if schedule == [] then Init(cfg)
    else Step(cfg, After(cfg, schedule[..|schedule| - 1]), schedule[|schedule| - 1])
  }

  // ---------- Totals over the threads ----------

  datatype Share = Paid | Pending

  function Weight(share: Share): Thread -> nat {
    (t: Thread) =>
      match share
      case Paid => if t.pc.Granted? then Price(t) else 0
      case Pending => if t.pc.Add? then t.pc.credit * FP_SCALE else 0
  }

  // ---------- The invariant ----------

  ghost predicate ThreadAgrees(t: Thread, clock: nat) {
    && (t.pc.Swap? ==> t.pc.now <= clock)
    && (t.pc.Cas? ==> Price(t) <= t.pc.current)
  }

  ghost predicate TokensAgree(cfg: Config, s: State) {
    && s.tokensFp + Tally(Weight(Paid), s.threads) + s.discarded == New(cfg).tokensFp + s.added
    && s.added + Tally(Weight(Pending), s.threads) == s.credited * FP_SCALE
    && s.tokensFp <= Largest(New(cfg).tokensFp, SaturatingMul(cfg.capacity, FP_SCALE))
  }

  ghost predicate TimeAgrees(cfg: Config, s: State) {
    s.lastNs <= s.clock && s.credited as real <= Accrued(cfg.rate, s.lastNs + s.backward)
  }

  ghost predicate Inv(cfg: Config, s: State) {
    && TokensAgree(cfg, s)
    && (cfg.rate >= 0.0 ==> TimeAgrees(cfg, s))
    && (forall i :: 0 <= i < |s.threads| ==> ThreadAgrees(s.threads[i], s.clock))
  }

  lemma MoveTally(share: Share, s: State, i: nat, pc: Pc)
    requires i < |s.threads|
    ensures Tally(Weight(share), MoveTo(s, i, pc))
            == Tally(Weight(share), s.threads) - Weight(share)(s.threads[i]) + Weight(share)(s.threads[i].(pc := pc))
  {
    TallyUpdate(Weight(share), s.threads, i, s.threads[i].(pc := pc));
  }

  lemma TokensStep(cfg: Config, s: State, i: nat, spurious: bool)
    requires TokensAgree(cfg, s) && Enabled(s, Advance(i, spurious)) && ThreadAgrees(s.threads[i], s.clock)
    ensures TokensAgree(cfg, StepThread(cfg, s, i, spurious))
  {
    var s' := StepThread(cfg, s, i, spurious);
    assert s'.threads == MoveTo(s, i, s'.threads[i].pc);
    MoveTally(Paid, s, i, s'.threads[i].pc);
    MoveTally(Pending, s, i, s'.threads[i].pc);
  }

  /** A thread that has only started weighs nothing. */
  lemma StartTally(share: Share, threads: seq<Thread>, n: u64)
    ensures Tally(Weight(share), threads + [Thread(n, ReadClock)]) == Tally(Weight(share), threads)
  {
    assert (threads + [Thread(n, ReadClock)])[..|threads|] == threads;
  }

  lemma StartKeepsTokens(cfg: Config, s: State, n: u64)
    requires TokensAgree(cfg, s)
    ensures TokensAgree(cfg, s.(threads := s.threads + [Thread(n, ReadClock)]))
  {
    StartTally(Paid, s.threads, n);
    StartTally(Pending, s.threads, n);
  }

  lemma StartKeepsInv(cfg: Config, s: State, n: u64)
    requires Inv(cfg, s)
    ensures Inv(cfg, Step(cfg, s, Start(n)))
  {
    StartKeepsTokens(cfg, s, n);
    SameTime(cfg, s, Step(cfg, s, Start(n)));
  }

  /** What neither swaps nor takes the clock back leaves the time and the credit in order. */
  lemma SameTime(cfg: Config, s: State, s': State)
    requires s'.lastNs == s.lastNs && s'.credited == s.credited && s'.backward == s.backward && s'.clock >= s.clock
    ensures cfg.rate >= 0.0 && TimeAgrees(cfg, s) ==> TimeAgrees(cfg, s')
  {
  }

  lemma TickKeepsInv(cfg: Config, s: State, ns: nat)
    requires Inv(cfg, s)
    ensures Inv(cfg, Step(cfg, s, Tick(ns)))
  {
    var s' := Step(cfg, s, Tick(ns));
    assert TokensAgree(cfg, s');
    SameTime(cfg, s, s');
    forall i | 0 <= i < |s'.threads| ensures ThreadAgrees(s'.threads[i], s'.clock) {
      assert ThreadAgrees(s.threads[i], s.clock);
    }
  }

  /** A swap credits no more than the way forward, whether or not it moves the time back. */
  lemma TimeStep(cfg: Config, s: State, now: nat, s': State)
    requires cfg.rate >= 0.0 && TimeAgrees(cfg, s) && now <= s.clock
    requires s'.clock == s.clock && s'.lastNs == now && s'.credited == s.credited + Credit(cfg, s.lastNs, now)
    requires s'.backward == s.backward + if now < s.lastNs then s.lastNs - now else 0
    ensures TimeAgrees(cfg, s')
  {
    if now > s.lastNs {
      AccruedNonNegative(cfg.rate, now - s.lastNs);
      AccruedAdds(cfg.rate, s.lastNs + s.backward, now - s.lastNs);
    } else {
      assert s'.lastNs + s'.backward == s.lastNs + s.backward;
    }
  }

  lemma ThreadsStep(cfg: Config, s: State, i: nat, spurious: bool)
    requires Enabled(s, Advance(i, spurious))
    requires forall j :: 0 <= j < |s.threads| ==> ThreadAgrees(s.threads[j], s.clock)
    ensures var s' := StepThread(cfg, s, i, spurious);
            s'.clock == s.clock && forall j :: 0 <= j < |s'.threads| ==> ThreadAgrees(s'.threads[j], s'.clock)
  {
  }

  /** Only a swap touches the time and the credit. */
  lemma OtherStepsKeepTime(cfg: Config, s: State, i: nat, spurious: bool)
    requires Enabled(s, Advance(i, spurious)) && !s.threads[i].pc.Swap?
    requires cfg.rate >= 0.0 && TimeAgrees(cfg, s)
    ensures TimeAgrees(cfg, StepThread(cfg, s, i, spurious))
  {
    SameTime(cfg, s, StepThread(cfg, s, i, spurious));
  }

  lemma AdvanceKeepsInv(cfg: Config, s: State, i: nat, spurious: bool)
    requires Inv(cfg, s) && Enabled(s, Advance(i, spurious))
    ensures Inv(cfg, StepThread(cfg, s, i, spurious))
  {
    assert ThreadAgrees(s.threads[i], s.clock);
    TokensStep(cfg, s, i, spurious);
    ThreadsStep(cfg, s, i, spurious);
    if cfg.rate >= 0.0 {
      if s.threads[i].pc.Swap? {
        TimeStep(cfg, s, s.threads[i].pc.now, StepThread(cfg, s, i, spurious));
      } else {
        OtherStepsKeepTime(cfg, s, i, spurious);
      }
    }
  }

  lemma StepKeepsInv(cfg: Config, s: State, a: Action)
    requires Inv(cfg, s) && Enabled(s, a)
    ensures Inv(cfg, Step(cfg, s, a))
  {
    match a
    case Tick(ns) => TickKeepsInv(cfg, s, ns);
    case Start(n) => StartKeepsInv(cfg, s, n);
    case Advance(i, spurious) => AdvanceKeepsInv(cfg, s, i, spurious);
  }

  lemma {:induction false} ReachableInv(cfg: Config, schedule: seq<Action>)
    requires IsSchedule(cfg, schedule)
    ensures Inv(cfg, After(cfg, schedule))
  {
    if schedule == [] {
      assert Accrued(cfg.rate, 0) == 0.0;
    } else {
      ReachableInv(cfg, schedule[..|schedule| - 1]);
      StepKeepsInv(cfg, After(cfg, schedule[..|schedule| - 1]), schedule[|schedule| - 1]);
    }
  }

  /**
   * In every interleaving no token is spent twice: what the granted threads paid, what is left
   * and what clamping discarded is exactly what was there at first and what refills added.
   */
  lemma NoTokenSpentTwice(cfg: Config, schedule: seq<Action>)
    requires IsSchedule(cfg, schedule)
    ensures var s := After(cfg, schedule);
            && s.tokensFp + Tally(Weight(Paid), s.threads) + s.discarded == New(cfg).tokensFp + s.added
            && s.tokensFp <= Largest(New(cfg).tokensFp, SaturatingMul(cfg.capacity, FP_SCALE))
  {
    ReachableInv(cfg, schedule);
  }

  /**
   * Racing clock reads can break the supply bound only by the distance that late swaps have
   * moved the update time back; without such swaps the sequential bound holds.
   */
  lemma ConcurrentSupplyBound(cfg: Config, schedule: seq<Action>)
    requires IsSchedule(cfg, schedule) && cfg.rate >= 0.0
    ensures var s := After(cfg, schedule);
            (s.tokensFp + Tally(Weight(Paid), s.threads)) as real
            <= New(cfg).tokensFp as real + Accrued(cfg.rate, s.clock + s.backward) * 4294967296.0
  {
    ReachableInv(cfg, schedule);
    var s := After(cfg, schedule);
    AccruedNonNegative(cfg.rate, s.clock - s.lastNs);
    AccruedAdds(cfg.rate, s.lastNs + s.backward, s.clock - s.lastNs);
    assert s.added <= s.credited * FP_SCALE;
  }

  lemma Extend(cfg: Config, schedule: seq<Action>, a: Action) returns (longer: seq<Action>)
    requires IsSchedule(cfg, schedule) && Enabled(After(cfg, schedule), a)
    ensures IsSchedule(cfg, longer) && longer == schedule + [a]
    ensures After(cfg, longer) == Step(cfg, After(cfg, schedule), a)
  {
    longer := schedule + [a];
    assert longer[..|longer| - 1] == schedule;
  }

  /** Three threads read the clock at `p`, `q` and `q`, and none has swapped yet. */
  lemma RacingReads(cfg: Config, p: nat, q: nat) returns (schedule: seq<Action>)
    requires cfg.initial == 0 && p <= q
    ensures IsSchedule(cfg, schedule)
    ensures After(cfg, schedule) ==
            State(0, 0, q, [Thread(1, Swap(p)), Thread(1, Swap(q)), Thread(1, Swap(q))], 0, 0, 0, 0)
  {
    schedule := Extend(cfg, [], Start(1));
    schedule := Extend(cfg, schedule, Start(1));
    schedule := Extend(cfg, schedule, Start(1));
    schedule := Extend(cfg, schedule, Tick(p));
    schedule := Extend(cfg, schedule, Advance(0, false));
    schedule := Extend(cfg, schedule, Tick(q - p));
    schedule := Extend(cfg, schedule, Advance(1, false));
    schedule := Extend(cfg, schedule, Advance(2, false));
  }

  /** A limiter that earns one token per nanosecond. */
  function Fast(): Config {
    Config(0xFFFF_FFFF, 1000000000.0, 0)
  }

  lemma FastCredit(lastNs: nat, now: nat)
    requires now <= 0xFFFF_FFFF
    ensures Credit(Fast(), lastNs, now) == if now <= lastNs then 0 else now - lastNs
  {
    if now > lastNs {
      assert Accrued(Fast().rate, now - lastNs) == (now - lastNs) as real;
    }
  }

  /** They swap in the order q, p, q. */
  lemma RacingSwaps(p: nat, q: nat) returns (schedule: seq<Action>)
    requires p < q && q + (q - p) <= 0xFFFF_FFFF
    ensures IsSchedule(Fast(), schedule)
    ensures After(Fast(), schedule) ==
            State(0, q, q, [Thread(1, Load), Thread(1, Add(q)), Thread(1, Add(q - p))], q + (q - p), 0, 0, q - p)
  {
    FastCredit(0, q);
    FastCredit(q, p);
    FastCredit(p, q);
    schedule := RacingReads(Fast(), p, q);
    schedule := Extend(Fast(), schedule, Advance(1, false));
    assert After(Fast(), schedule) ==
           State(0, q, q, [Thread(1, Swap(p)), Thread(1, Add(q)), Thread(1, Swap(q))], q, 0, 0, 0);
    schedule := Extend(Fast(), schedule, Advance(0, false));
    assert After(Fast(), schedule) ==
           State(0, p, q, [Thread(1, Load), Thread(1, Add(q)), Thread(1, Swap(q))], q, 0, 0, q - p);
    schedule := Extend(Fast(), schedule, Advance(2, false));
  }

  /**
   * The bound is attained, whatever the distance: those three threads swapping in the order q,
   * p, q have the time between p and q credited twice.
   */
  lemma RacingReadsCreditTwice(p: nat, q: nat) returns (schedule: seq<Action>)
    requires p < q && q + (q - p) <= 0xFFFF_FFFF
    ensures IsSchedule(Fast(), schedule)
    ensures var s := After(Fast(), schedule);
            s.clock == q && s.backward == q - p && s.tokensFp == (s.clock + s.backward) * FP_SCALE
  {
    schedule := RacingSwaps(p, q);
    schedule := Extend(Fast(), schedule, Advance(1, false));
    schedule := Extend(Fast(), schedule, Advance(2, false));
  }

  // ---------- A call that nobody disturbs ----------

  /** `longer` only goes on with thread `i`. */
  predicate OnlyAdvances(schedule: seq<Action>, longer: seq<Action>, i: nat) {
    schedule <= longer && forall k :: |schedule| <= k < |longer| ==> longer[k] == Advance(i, false)
  }

  lemma AdvanceAlone(cfg: Config, start: seq<Action>, schedule: seq<Action>, i: nat) returns (longer: seq<Action>)
    requires OnlyAdvances(start, schedule, i)
    requires IsSchedule(cfg, schedule) && Enabled(After(cfg, schedule), Advance(i, false))
    ensures IsSchedule(cfg, longer) && OnlyAdvances(start, longer, i)
    ensures After(cfg, longer) == StepThread(cfg, After(cfg, schedule), i, false)
  {
    longer := Extend(cfg, schedule, Advance(i, false));
  }

  /** From its first step to where it looks at the tokens a thread refills the bucket. */
  lemma RefillAlone(cfg: Config, schedule: seq<Action>, i: nat) returns (longer: seq<Action>)
    requires IsSchedule(cfg, schedule) && i < |After(cfg, schedule).threads|
    requires After(cfg, schedule).threads[i].pc.ReadClock?
    ensures IsSchedule(cfg, longer) && OnlyAdvances(schedule, longer, i)
    ensures var s, s' := After(cfg, schedule), After(cfg, longer);
            && Bucket(s'.tokensFp, s'.lastNs) == Refill(cfg, Bucket(s.tokensFp, s.lastNs), s.clock)
            && s'.threads == MoveTo(s, i, Load)
  {
    var s := After(cfg, schedule);
    longer := AdvanceAlone(cfg, schedule, schedule, i);
    assert After(cfg, longer) == s.(threads := MoveTo(s, i, Swap(s.clock)));
    longer := AdvanceAlone(cfg, schedule, longer, i);
    var credit, swapped := Credit(cfg, s.lastNs, s.clock), After(cfg, longer);
    assert swapped.threads == MoveTo(s, i, if credit == 0 then Load else Add(credit));
    assert swapped.tokensFp == s.tokensFp && swapped.lastNs == s.clock;
    if credit > 0 {
      longer := AdvanceAlone(cfg, schedule, longer, i);
      assert After(cfg, longer).threads == MoveTo(s, i, Load);
    }
  }

  /** Then it takes its price, or is rejected. */
  lemma TakeAlone(cfg: Config, start: seq<Action>, schedule: seq<Action>, i: nat) returns (longer: seq<Action>)
    requires OnlyAdvances(start, schedule, i)
    requires IsSchedule(cfg, schedule) && i < |After(cfg, schedule).threads|
    requires After(cfg, schedule).threads[i].pc.Load?
    ensures IsSchedule(cfg, longer) && OnlyAdvances(start, longer, i)
    ensures var s, s' := After(cfg, schedule), After(cfg, longer);
            var price := Price(s.threads[i]);
            && s'.lastNs == s.lastNs
            && s'.tokensFp == (if s.tokensFp < price then s.tokensFp else s.tokensFp - price)
            && s'.threads == MoveTo(s, i, if s.tokensFp < price then Rejected else Granted)
  {
    var s := After(cfg, schedule);
    longer := AdvanceAlone(cfg, start, schedule, i);
    if s.tokensFp >= Price(s.threads[i]) {
      assert After(cfg, longer) == s.(threads := MoveTo(s, i, Cas(s.tokensFp)));
      longer := AdvanceAlone(cfg, start, longer, i);
      assert After(cfg, longer).threads == MoveTo(s, i, Granted);
    }
  }

  /** From any reachable state, a thread that runs alone makes exactly one sequential call. */
  lemma UndisturbedCall(cfg: Config, schedule: seq<Action>, i: nat) returns (longer: seq<Action>)
    requires IsSchedule(cfg, schedule) && i < |After(cfg, schedule).threads|
    requires After(cfg, schedule).threads[i].pc.ReadClock?
    ensures IsSchedule(cfg, longer) && OnlyAdvances(schedule, longer, i)
    ensures var s, s' := After(cfg, schedule), After(cfg, longer);
            var (b, ok) := TryAcquire(cfg, Bucket(s.tokensFp, s.lastNs), Call(s.threads[i].n, s.clock));
            && Bucket(s'.tokensFp, s'.lastNs) == b
            && s'.threads == MoveTo(s, i, if ok then Granted else Rejected)
  {
    var refilled := RefillAlone(cfg, schedule, i);
    longer := TakeAlone(cfg, schedule, refilled, i);
    var s := After(cfg, schedule);
    assert After(cfg, refilled).threads[i].n == s.threads[i].n;
    assert forall pc :: MoveTo(After(cfg, refilled), i, pc) == MoveTo(s, i, pc);
  }
}
