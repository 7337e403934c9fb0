/**
 * Any number of threads recording into one jitter tracker, one atomic access per step: the
 * loop that guards three fields by exchanging only one of them. There is no reset.
 */
module JitterConcurrent {
  import opened Sums
  import opened Jitter

  datatype Pc =
    | LoadCount
    | LoadMean(count: nat)
    | LoadM2(count: nat, meanFp: nat, freshMean: bool)
    | Exchange(count: nat, meanFp: nat, m2Fp: nat, freshMean: bool, freshM2: bool)
    | StoreMean(newMeanFp: nat, newM2Fp: nat)
    | StoreM2(newM2Fp: nat)
    | Done

  datatype Thread = Thread(value: nat, pc: Pc)

  /**
   * `won` and `winners` are histories: the samples and the threads in the order in which their
   * exchanges succeeded. So are the two flags of an attempt: whether each of its loads found
   * nobody about to store that field.
   */
  datatype Shared = Shared(
    count: nat, meanFp: nat, m2Fp: nat, threads: seq<Thread>, won: seq<nat>, winners: seq<nat>)

  datatype Action = Start(value: nat) | Advance(thread: nat, spurious: bool)

  function Empty(): Shared {
    Shared(0, 0, 0, [], [], [])
  }

  /** Between the exchange and the last store the fields do not belong together. */
  predicate InWindow(pc: Pc) {
    pc.StoreMean? || pc.StoreM2?
  }

  predicate NobodyAtMean(s: Shared) {
    forall i :: 0 <= i < |s.threads| ==> !s.threads[i].pc.StoreMean?
  }

  predicate NobodyInWindow(s: Shared) {
    forall i :: 0 <= i < |s.threads| ==> !InWindow(s.threads[i].pc)
  }

  predicate Enabled(s: Shared, a: Action) {
    a.Advance? ==> a.thread < |s.threads| && !s.threads[a.thread].pc.Done?
  }

  /** The fields that recording one more sample would leave, were they as loaded. */
  function Next(count: nat, meanFp: nat, m2Fp: nat, value: nat): State {
    Recorded(State(count, meanFp, m2Fp, 0, 0), value)
  }

  function MoveTo(s: Shared, i: nat, pc: Pc): seq<Thread>
    requires i < |s.threads|
  {
    s.threads[i := Thread(s.threads[i].value, pc)]
  }

  function StepThread(s: Shared, i: nat, spurious: bool): Shared
    requires Enabled(s, Advance(i, spurious))
  {
    var v := s.threads[i].value;
    match s.threads[i].pc
    case LoadCount => s.(threads := MoveTo(s, i, LoadMean(s.count)))
    case LoadMean(c) => s.(threads := MoveTo(s, i, LoadM2(c, s.meanFp, NobodyAtMean(s))))
    case LoadM2(c, m, f) => s.(threads := MoveTo(s, i, Exchange(c, m, s.m2Fp, f, NobodyInWindow(s))))
    case Exchange(c, m, q, _, _) =>
      if s.count == c && !spurious then
        var next := Next(c, m, q, v);
        s.(count := c + 1, won := s.won + [v], winners := s.winners + [i],
           threads := MoveTo(s, i, StoreMean(next.meanFp, next.m2Fp)))
      else s.(threads := MoveTo(s, i, LoadCount))
    case StoreMean(m, q) => s.(meanFp := m, threads := MoveTo(s, i, StoreM2(q)))
    case StoreM2(q) => s.(m2Fp := q, threads := MoveTo(s, i, Done))
  }

  function Step(s: Shared, a: Action): Shared
    requires Enabled(s, a)
  {
    match a
    case Start(v) => s.(threads := s.threads + [Thread(v, LoadCount)])
    case Advance(i, spurious) => StepThread(s, i, spurious)
  }

  predicate IsSchedule(schedule: seq<Action>)
    decreases |schedule|, 1
  {
    schedule == [] ||
    (IsSchedule(schedule[..|schedule| - 1]) &&
     Enabled(After(schedule[..|schedule| - 1]), schedule[|schedule| - 1]))
  }

  function After(schedule: seq<Action>): Shared
    requires IsSchedule(schedule)
    decreases |schedule|, 2
  {
    if schedule == [] then Empty()
    else Step(After(schedule[..|schedule| - 1]), schedule[|schedule| - 1])
  }

  // ---------- What holds in every interleaving ----------

  predicate HasWon(t: Thread) {
    t.pc.StoreMean? || t.pc.StoreM2? || t.pc.Done?
  }

  /** Whether a thread with sample `v` has succeeded with its exchange. */
  function Win(v: nat): Thread -> nat {
    (t: Thread) => if HasWon(t) && t.value == v then 1 else 0
  }

  ghost predicate CountAgrees(s: Shared) {
    s.count == |s.won| && forall v: nat :: multiset(s.won)[v] == Tally(Win(v), s.threads)
  }

  lemma WonSnoc(won: seq<nat>, x: nat, v: nat)
    ensures multiset(won + [x])[v] == multiset(won)[v] + if x == v then 1 else 0
  {
  }

  /** A step wins at most once, and then with the thread's own sample. */
  lemma StepWins(s: Shared, i: nat, spurious: bool)
    requires Enabled(s, Advance(i, spurious))
    ensures var s', t := StepThread(s, i, spurious), s.threads[i];
            && |s'.threads| == |s.threads| && s'.threads == s.threads[i := s'.threads[i]]
            && s'.threads[i].value == t.value && (HasWon(t) ==> HasWon(s'.threads[i]))
            && if HasWon(s'.threads[i]) && !HasWon(t) then s'.count == s.count + 1 && s'.won == s.won + [t.value]
               else s'.won == s.won && s'.count == s.count
  {
  }

  lemma AdvanceKeepsCount(s: Shared, i: nat, s': Shared)
    requires CountAgrees(s) && i < |s.threads| == |s'.threads| && s'.threads == s.threads[i := s'.threads[i]]
    requires var t, t' := s.threads[i], s'.threads[i];
             && t'.value == t.value && (HasWon(t) ==> HasWon(t'))
             && if HasWon(t') && !HasWon(t) then s'.count == s.count + 1 && s'.won == s.won + [t.value]
                else s'.won == s.won && s'.count == s.count
    ensures CountAgrees(s')
  {
    forall v: nat ensures multiset(s'.won)[v] == Tally(Win(v), s'.threads) {
      TallyUpdate(Win(v), s.threads, i, s'.threads[i]);
      WonSnoc(s.won, s.threads[i].value, v);
    }
  }

  lemma StepKeepsCount(s: Shared, a: Action)
    requires CountAgrees(s) && Enabled(s, a)
    ensures CountAgrees(Step(s, a))
  {
    match a
    case Start(_) => assert Step(s, a).threads[..|s.threads|] == s.threads;
    case Advance(i, spurious) =>
      StepWins(s, i, spurious);
      AdvanceKeepsCount(s, i, StepThread(s, i, spurious));
  }

  lemma {:induction false} ReachableCount(schedule: seq<Action>)
    requires IsSchedule(schedule)
    ensures CountAgrees(After(schedule))
  {
    if schedule != [] {
      ReachableCount(schedule[..|schedule| - 1]);
      StepKeepsCount(After(schedule[..|schedule| - 1]), schedule[|schedule| - 1]);
    }
  }

  function Values(threads: seq<Thread>): seq<nat> {
    if threads == [] then [] else Values(threads[..|threads| - 1]) + [threads[|threads| - 1].value]
  }

  lemma {:induction false} WinnersWhenDone(threads: seq<Thread>, v: nat)
    requires forall i :: 0 <= i < |threads| ==> threads[i].pc.Done?
    ensures Tally(Win(v), threads) == multiset(Values(threads))[v] && |Values(threads)| == |threads|
  {
    if threads != [] {
      var before, x := threads[..|threads| - 1], threads[|threads| - 1].value;
      WinnersWhenDone(before, v);
      WonSnoc(Values(before), x, v);
    }
  }

  lemma SamplesAgree(won: seq<nat>, threads: seq<Thread>)
    requires forall v: nat :: multiset(won)[v] == Tally(Win(v), threads)
    requires forall i :: 0 <= i < |threads| ==> threads[i].pc.Done?
    ensures multiset(won) == multiset(Values(threads)) && |won| == |threads|
  {
    WinnersWhenDone(threads, 0);
    forall v: nat ensures multiset(won)[v] == multiset(Values(threads))[v] {
      WinnersWhenDone(threads, v);
    }
    assert multiset(won) == multiset(Values(threads));
    assert |multiset(won)| == |won| && |multiset(Values(threads))| == |Values(threads)|;
  }

  /** Once all threads are done, every sample has been counted exactly once. */
  lemma EverySampleIsCounted(schedule: seq<Action>)
    requires IsSchedule(schedule)
    requires forall i :: 0 <= i < |After(schedule).threads| ==> After(schedule).threads[i].pc.Done?
    ensures var s := After(schedule);
            s.count == |s.threads| && multiset(s.won) == multiset(Values(s.threads))
  {
    ReachableCount(schedule);
    var s := After(schedule);
    SamplesAgree(s.won, s.threads);
  }

  // ---------- When mean and squared deviation are right ----------

  /** The tracker after recording samples one after the other. */
  function Sequential(samples: seq<nat>): State {
    if samples == [] then INIT else Recorded(Sequential(samples[..|samples| - 1]), samples[|samples| - 1])
  }

  /** The same without the last sample. */
  function Prior(samples: seq<nat>): State {
    if samples == [] then INIT else Sequential(samples[..|samples| - 1])
  }

  lemma SequentialSnoc(samples: seq<nat>, x: nat)
    ensures Sequential(samples + [x]) == Recorded(Sequential(samples), x)
    ensures Prior(samples + [x]) == Sequential(samples)
  {
    assert (samples + [x])[..|samples|] == samples;
  }

  /** The first sample has no deviation, whatever it is. */
  lemma FirstDeviation(x: nat)
    ensures Sequential([x]).m2Fp == 0
  {
    SequentialSnoc([], x);
    assert [] + [x] == [x];
    assert NewMean(0.0, 0, x as real) == x as real;
  }

  predicate Wins(s: Shared, a: Action) {
    a.Advance? && a.thread < |s.threads| && !a.spurious &&
    s.threads[a.thread].pc.Exchange? && s.threads[a.thread].pc.count == s.count
  }

  /**
   * The exchange may win: both of its loads were fresh. A deviation that is not fresh is as good
   * only as the second sample's, because the first one leaves it at zero, and only once the
   * first one's stores are over.
   */
  predicate SafeWin(s: Shared, pc: Pc)
    requires pc.Exchange?
  {
    pc.freshMean && (pc.freshM2 || (s.count == 1 && NobodyInWindow(s)))
  }

  predicate WinsAreSafe(schedule: seq<Action>)
    requires IsSchedule(schedule)
  {
    schedule == [] ||
    (var before, a := schedule[..|schedule| - 1], schedule[|schedule| - 1];
     WinsAreSafe(before) && (Wins(After(before), a) ==> SafeWin(After(before), After(before).threads[a.thread].pc)))
  }

  /** What a thread holds or is about to store, in terms of the state `w` and the one before, `p`. */
  ghost predicate ThreadAgrees(s: Shared, w: State, p: State, pc: Pc) {
    match pc
    case LoadCount => true
    case LoadMean(c) => c <= s.count
    case LoadM2(c, m, f) =>
      c <= s.count && (c == s.count ==> m == (if f then w.meanFp else p.meanFp) && (f || s.won != []))
    case Exchange(c, m, q, f, g) =>
      && c <= s.count
      && (c == s.count ==>
            && m == (if f then w.meanFp else p.meanFp)
            && q == (if g then w.m2Fp else p.m2Fp)
            && (g ==> NobodyInWindow(s))
            && ((f && g) || s.won != []))
    case StoreMean(m, q) => m == w.meanFp && q == w.m2Fp && s.meanFp == p.meanFp && s.m2Fp == p.m2Fp
    case StoreM2(q) => q == w.m2Fp && s.meanFp == w.meanFp && s.m2Fp == p.m2Fp
    case Done => true
  }

  /** Only the last winner can be in the window. */
  ghost predicate WindowIsLast(s: Shared) {
    forall i :: 0 <= i < |s.threads| && InWindow(s.threads[i].pc) ==>
      s.winners != [] && i == s.winners[|s.winners| - 1]
  }

  ghost predicate Serial(s: Shared) {
    var w, p := Sequential(s.won), Prior(s.won);
    && s.count == |s.won| == |s.winners| == w.count
    && (NobodyInWindow(s) ==> s.meanFp == w.meanFp && s.m2Fp == w.m2Fp)
    && WindowIsLast(s)
    && forall i :: 0 <= i < |s.threads| ==> ThreadAgrees(s, w, p, s.threads[i].pc)
  }

  /** What a safe winner loaded is the sequential state. */
  lemma SafeLoads(s: Shared, pc: Pc)
    requires Serial(s) && pc.Exchange? && pc.count == s.count && SafeWin(s, pc)
    requires ThreadAgrees(s, Sequential(s.won), Prior(s.won), pc)
    ensures NobodyInWindow(s)
    ensures pc.meanFp == s.meanFp == Sequential(s.won).meanFp && pc.m2Fp == s.m2Fp == Sequential(s.won).m2Fp
  {
    if !pc.freshM2 {
      FirstDeviation(s.won[0]);
      assert s.won == [s.won[0]];
      assert s.won[..0] == [];
    }
  }

  /** A safe exchange that wins takes over the window with the next sequential values. */
  lemma WinKeepsSerial(s: Shared, i: nat)
    requires Serial(s) && Wins(s, Advance(i, false)) && SafeWin(s, s.threads[i].pc)
    ensures Serial(StepThread(s, i, false))
  {
    var s', v := StepThread(s, i, false), s.threads[i].value;
    assert ThreadAgrees(s, Sequential(s.won), Prior(s.won), s.threads[i].pc);
    SafeLoads(s, s.threads[i].pc);
    SequentialSnoc(s.won, v);
    forall j | 0 <= j < |s'.threads|
      ensures ThreadAgrees(s', Sequential(s'.won), Prior(s'.won), s'.threads[j].pc)
    {
      assert ThreadAgrees(s, Sequential(s.won), Prior(s.won), s.threads[j].pc);
    }
    assert InWindow(s'.threads[i].pc);
  }

  /** A store, by the only thread in the window. */
  lemma StoreKeepsSerial(s: Shared, i: nat)
    requires Serial(s) && i < |s.threads| && InWindow(s.threads[i].pc)
    ensures Serial(StepThread(s, i, false)) && StepThread(s, i, true) == StepThread(s, i, false)
  {
    var s', w, p := StepThread(s, i, false), Sequential(s.won), Prior(s.won);
    assert ThreadAgrees(s, w, p, s.threads[i].pc);
    forall j | 0 <= j < |s'.threads| ensures ThreadAgrees(s', w, p, s'.threads[j].pc) {
      assert ThreadAgrees(s, w, p, s.threads[j].pc);
      assert s'.threads[i].pc.StoreM2? ==> InWindow(s'.threads[i].pc);
    }
    if s'.threads[i].pc.Done? {
      assert NobodyInWindow(s');
    }
  }

  /** A load or a lost exchange. */
  lemma QuietKeepsSerial(s: Shared, i: nat, pc: Pc)
    requires Serial(s) && i < |s.threads| && !InWindow(s.threads[i].pc) && !InWindow(pc)
    requires ThreadAgrees(s, Sequential(s.won), Prior(s.won), pc)
    ensures Serial(s.(threads := MoveTo(s, i, pc)))
  {
    var s', w, p := s.(threads := MoveTo(s, i, pc)), Sequential(s.won), Prior(s.won);
    assert NobodyInWindow(s') <==> NobodyInWindow(s) by {
      assert forall j :: 0 <= j < |s.threads| ==> InWindow(s'.threads[j].pc) == InWindow(s.threads[j].pc);
    }
    forall j | 0 <= j < |s'.threads| ensures ThreadAgrees(s', w, p, s'.threads[j].pc) {
      assert ThreadAgrees(s, w, p, s.threads[j].pc);
    }
  }

  lemma StartKeepsSerial(s: Shared, v: nat)
    requires Serial(s)
    ensures Serial(Step(s, Start(v)))
  {
    var s', w, p := Step(s, Start(v)), Sequential(s.won), Prior(s.won);
    assert NobodyInWindow(s') <==> NobodyInWindow(s) by {
      assert forall j :: 0 <= j < |s.threads| ==> s'.threads[j] == s.threads[j];
    }
    forall j | 0 <= j < |s'.threads| ensures ThreadAgrees(s', w, p, s'.threads[j].pc) {
      if j < |s.threads| {
        assert ThreadAgrees(s, w, p, s.threads[j].pc);
      }
    }
  }

  /** What the fields are while somebody may be storing them. */
  lemma FieldsAreSerial(s: Shared)
    requires Serial(s)
    ensures s.meanFp == if NobodyAtMean(s) then Sequential(s.won).meanFp else Prior(s.won).meanFp
    ensures s.m2Fp == if NobodyInWindow(s) then Sequential(s.won).m2Fp else Prior(s.won).m2Fp
    ensures NobodyInWindow(s) || s.won != []
  {
    if !NobodyInWindow(s) {
      var i :| 0 <= i < |s.threads| && InWindow(s.threads[i].pc);
      assert ThreadAgrees(s, Sequential(s.won), Prior(s.won), s.threads[i].pc);
      if !NobodyAtMean(s) {
        var j :| 0 <= j < |s.threads| && s.threads[j].pc.StoreMean?;
        assert InWindow(s.threads[j].pc) && ThreadAgrees(s, Sequential(s.won), Prior(s.won), s.threads[j].pc);
      }
    } else {
      assert NobodyAtMean(s) by {
        assert forall i :: 0 <= i < |s.threads| ==> !InWindow(s.threads[i].pc);
      }
    }
  }

  lemma StepKeepsSerial(s: Shared, i: nat, spurious: bool)
    requires Serial(s) && Enabled(s, Advance(i, spurious))
    requires Wins(s, Advance(i, spurious)) ==> SafeWin(s, s.threads[i].pc)
    ensures Serial(StepThread(s, i, spurious))
  {
    var pc := s.threads[i].pc;
    assert ThreadAgrees(s, Sequential(s.won), Prior(s.won), pc);
    if InWindow(pc) {
      StoreKeepsSerial(s, i);
    } else if Wins(s, Advance(i, spurious)) {
      WinKeepsSerial(s, i);
    } else {
      FieldsAreSerial(s);
      QuietKeepsSerial(s, i, StepThread(s, i, spurious).threads[i].pc);
    }
  }

  lemma {:induction false} ReachableSerial(schedule: seq<Action>)
    requires IsSchedule(schedule) && WinsAreSafe(schedule)
    ensures Serial(After(schedule))
  {
    if schedule != [] {
      var before, a := schedule[..|schedule| - 1], schedule[|schedule| - 1];
      ReachableSerial(before);
      match a
      case Start(v) => StartKeepsSerial(After(before), v);
      case Advance(i, spurious) => StepKeepsSerial(After(before), i, spurious);
    }
  }

  /** Mean and squared deviation are those of recording the same samples one after the other. */
  predicate IsRight(s: Shared) {
    s.meanFp == Sequential(s.won).meanFp && s.m2Fp == Sequential(s.won).m2Fp
  }

  /**
   * As long as every exchange that wins is safe, mean and squared deviation are right whenever
   * nobody is storing them. Attempts that fail may have loaded anything.
   */
  lemma SafeWinsAreSequential(schedule: seq<Action>)
    requires IsSchedule(schedule) && WinsAreSafe(schedule) && NobodyInWindow(After(schedule))
    ensures IsRight(After(schedule)) && After(schedule).count == Sequential(After(schedule).won).count
  {
    ReachableSerial(schedule);
  }

  lemma Extend(schedule: seq<Action>, a: Action) returns (longer: seq<Action>)
    requires IsSchedule(schedule) && Enabled(After(schedule), a)
    ensures longer == schedule + [a] && IsSchedule(longer) && After(longer) == Step(After(schedule), a)
  {
    longer := schedule + [a];
    assert longer[..|schedule|] == schedule;
  }
}
