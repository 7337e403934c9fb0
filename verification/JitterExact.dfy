/**
 * Exactly when the jitter tracker's loop keeps mean and squared deviation right. Which thread
 * does what next never depends on the samples, so a schedule has a shape, and the question is
 * whether a shape gives the right statistics for all samples.
 */
module JitterExact {
  import opened RealFacts
  import opened Jitter
  import opened JitterConcurrent

  // ---------- Shapes ----------

  /** A position with the loaded and computed values left out. */
  function Skeleton(pc: Pc): Pc {
    match pc
    case LoadM2(c, _, f) => LoadM2(c, 0, f)
    case Exchange(c, _, _, f, g) => Exchange(c, 0, 0, f, g)
    case StoreMean(_, _) => StoreMean(0, 0)
    case StoreM2(_) => StoreM2(0)
    case _ => pc
  }

  ghost predicate SameControl(s: Shared, t: Shared) {
    && s.count == t.count && s.winners == t.winners && |s.threads| == |t.threads|
    && forall i :: 0 <= i < |s.threads| ==> Skeleton(s.threads[i].pc) == Skeleton(t.threads[i].pc)
  }

  predicate SameAction(a: Action, b: Action) {
    a == b || (a.Start? && b.Start?)
  }

  /** The same schedule but for the samples. */
  predicate SameShape(x: seq<Action>, y: seq<Action>) {
    |x| == |y| &&
    (x == [] || (SameShape(x[..|x| - 1], y[..|y| - 1]) && SameAction(x[|x| - 1], y[|y| - 1])))
  }

  lemma SameWindows(s: Shared, t: Shared)
    requires SameControl(s, t)
    ensures NobodyInWindow(s) <==> NobodyInWindow(t)
    ensures NobodyAtMean(s) <==> NobodyAtMean(t)
  {
    forall i | 0 <= i < |s.threads|
      ensures InWindow(s.threads[i].pc) == InWindow(t.threads[i].pc)
      ensures s.threads[i].pc.StoreMean? == t.threads[i].pc.StoreMean?
    {
      assert Skeleton(s.threads[i].pc) == Skeleton(t.threads[i].pc);
    }
  }

  lemma AdvanceKeepsControl(s: Shared, t: Shared, i: nat, spurious: bool)
    requires SameControl(s, t) && Enabled(s, Advance(i, spurious))
    ensures Enabled(t, Advance(i, spurious))
    ensures SameControl(StepThread(s, i, spurious), StepThread(t, i, spurious))
    ensures Wins(s, Advance(i, spurious)) <==> Wins(t, Advance(i, spurious))
    ensures Wins(s, Advance(i, spurious)) ==>
              (SafeWin(s, s.threads[i].pc) <==> SafeWin(t, t.threads[i].pc))
  {
    SameWindows(s, t);
    assert Skeleton(s.threads[i].pc) == Skeleton(t.threads[i].pc);
    var s', t' := StepThread(s, i, spurious), StepThread(t, i, spurious);
    assert Skeleton(s'.threads[i].pc) == Skeleton(t'.threads[i].pc);
    assert forall j :: 0 <= j < |s.threads| && j != i ==> s'.threads[j] == s.threads[j] && t'.threads[j] == t.threads[j];
  }

  lemma {:induction false} ShapeDecidesControl(x: seq<Action>, y: seq<Action>)
    requires IsSchedule(x) && SameShape(x, y)
    ensures IsSchedule(y) && SameControl(After(x), After(y))
    ensures WinsAreSafe(x) <==> WinsAreSafe(y)
  {
    if x != [] {
      var before, before' := x[..|x| - 1], y[..|y| - 1];
      ShapeDecidesControl(before, before');
      if x[|x| - 1].Advance? {
        AdvanceKeepsControl(After(before), After(before'), x[|x| - 1].thread, x[|x| - 1].spurious);
      }
    }
  }

  // ---------- Staying right until the next win ----------

  /** Whatever happens before the next exchange wins, the fields are right when nobody stores them. */
  ghost predicate StaysRight(schedule: seq<Action>)
    requires IsSchedule(schedule)
  {
    forall longer: seq<Action> ::
      schedule <= longer && IsSchedule(longer) &&
      After(longer).count == After(schedule).count && NobodyInWindow(After(longer))
      ==> IsRight(After(longer))
  }

  ghost predicate AlwaysRight(schedule: seq<Action>)
    requires IsSchedule(schedule)
  {
    StaysRight(schedule) && (schedule == [] || AlwaysRight(schedule[..|schedule| - 1]))
  }

  lemma WinsCount(s: Shared, a: Action)
    requires Enabled(s, a)
    ensures Step(s, a).count == s.count + if Wins(s, a) then 1 else 0
  {
  }

  lemma {:induction false} SafeUntilNextWin(schedule: seq<Action>, longer: seq<Action>)
    requires IsSchedule(schedule) && IsSchedule(longer) && schedule <= longer
    ensures After(schedule).count <= After(longer).count
    ensures WinsAreSafe(schedule) && After(schedule).count == After(longer).count ==> WinsAreSafe(longer)
  {
    if |longer| == |schedule| {
      assert longer == schedule;
    } else {
      SafeUntilNextWin(schedule, longer[..|longer| - 1]);
      WinsCount(After(longer[..|longer| - 1]), longer[|longer| - 1]);
    }
  }

  lemma {:induction false} SafeIsAlwaysRight(schedule: seq<Action>)
    requires IsSchedule(schedule) && WinsAreSafe(schedule)
    ensures AlwaysRight(schedule)
  {
    forall longer: seq<Action> | schedule <= longer && IsSchedule(longer) &&
        After(longer).count == After(schedule).count && NobodyInWindow(After(longer))
      ensures IsRight(After(longer))
    {
      SafeUntilNextWin(schedule, longer);
      SafeWinsAreSequential(longer);
    }
    if schedule != [] {
      SafeIsAlwaysRight(schedule[..|schedule| - 1]);
    }
  }

  // ---------- Choosing samples ----------

  function Started(schedule: seq<Action>): nat {
    if schedule == [] then 0
    else Started(schedule[..|schedule| - 1]) + if schedule[|schedule| - 1].Start? then 1 else 0
  }

  /** The schedule in which thread `j` records `f(j)`. */
  function Revalued(schedule: seq<Action>, f: nat -> nat): seq<Action> {
    if schedule == [] then []
    else
      var before, a := schedule[..|schedule| - 1], schedule[|schedule| - 1];
      Revalued(before, f) + [if a.Start? then Start(f(Started(before))) else a]
  }

  lemma {:induction false} RevaluedSnoc(schedule: seq<Action>, f: nat -> nat)
    ensures SameShape(schedule, Revalued(schedule, f))
  {
    if schedule != [] {
      var y := Revalued(schedule, f);
      RevaluedSnoc(schedule[..|schedule| - 1], f);
      assert y[..|y| - 1] == Revalued(schedule[..|schedule| - 1], f);
    }
  }

  lemma {:induction false} RevaluedSamples(schedule: seq<Action>, f: nat -> nat)
    requires IsSchedule(schedule)
    ensures IsSchedule(Revalued(schedule, f))
    ensures var threads := After(Revalued(schedule, f)).threads;
            |threads| == Started(schedule) && forall j :: 0 <= j < |threads| ==> threads[j].value == f(j)
  {
    RevaluedSnoc(schedule, f);
    ShapeDecidesControl(schedule, Revalued(schedule, f));
    if schedule != [] {
      var before, a := schedule[..|schedule| - 1], schedule[|schedule| - 1];
      RevaluedSamples(before, f);
      var b := if a.Start? then Start(f(Started(before))) else a;
      assert Revalued(schedule, f) == Revalued(before, f) + [b];
      SnocKeepsSamples(Revalued(before, f), b, f);
    }
  }

  lemma SnocKeepsSamples(schedule: seq<Action>, a: Action, f: nat -> nat)
    requires IsSchedule(schedule) && IsSchedule(schedule + [a])
    requires var threads := After(schedule).threads;
             && (forall j :: 0 <= j < |threads| ==> threads[j].value == f(j))
             && (a.Start? ==> a.value == f(|threads|))
    ensures var threads, later := After(schedule).threads, After(schedule + [a]).threads;
            && |later| == |threads| + (if a.Start? then 1 else 0)
            && forall j :: 0 <= j < |later| ==> later[j].value == f(j)
  {
    assert (schedule + [a])[..|schedule|] == schedule;
    StepKeepsSamples(After(schedule), a);
  }

  lemma StepKeepsSamples(s: Shared, a: Action)
    requires Enabled(s, a)
    ensures var threads := Step(s, a).threads;
            && |threads| == |s.threads| + (if a.Start? then 1 else 0)
            && (forall j :: 0 <= j < |s.threads| ==> threads[j].value == s.threads[j].value)
            && (a.Start? ==> threads[|s.threads|].value == a.value)
  {
  }

  /** The winners are distinct threads past their exchange, and `won` are their samples. */
  ghost predicate WonAgrees(s: Shared) {
    && |s.won| == |s.winners|
    && (forall k :: 0 <= k < |s.winners| ==>
          && s.winners[k] < |s.threads| && HasWon(s.threads[s.winners[k]])
          && s.won[k] == s.threads[s.winners[k]].value)
    && (forall k, l :: 0 <= k < l < |s.winners| ==> s.winners[k] != s.winners[l])
  }

  lemma StepKeepsWon(s: Shared, a: Action)
    requires WonAgrees(s) && Enabled(s, a)
    ensures WonAgrees(Step(s, a))
  {
    if a.Advance? {
      StepWins(s, a.thread, a.spurious);
    }
  }

  lemma {:induction false} ReachableWon(schedule: seq<Action>)
    requires IsSchedule(schedule)
    ensures WonAgrees(After(schedule))
  {
    if schedule != [] {
      ReachableWon(schedule[..|schedule| - 1]);
      StepKeepsWon(After(schedule[..|schedule| - 1]), schedule[|schedule| - 1]);
    }
  }

  /** Thread `a` records `x`, thread `b` records `v`, and all others record zero. */
  function Spike(a: nat, x: nat, b: nat, v: nat): nat -> nat {
    (j: nat) => if j == a then x else if j == b then v else 0
  }

  ghost predicate IsSpike(won: seq<nat>, x: nat) {
    won != [] && won[|won| - 1] == x && forall k :: 0 <= k < |won| - 1 ==> won[k] == 0
  }

  lemma SpikeIsWon(s: Shared, a: nat, x: nat, b: nat, v: nat)
    requires WonAgrees(s) && s.winners != [] && a == s.winners[|s.winners| - 1]
    requires b < |s.threads| && !HasWon(s.threads[b])
    requires forall j :: 0 <= j < |s.threads| ==> s.threads[j].value == Spike(a, x, b, v)(j)
    ensures a != b && IsSpike(s.won, x) && s.threads[b].value == v
  {
  }

  // ---------- What a spike does to the statistics ----------

  lemma {:induction false} ZeroSamples(samples: seq<nat>)
    requires forall k :: 0 <= k < |samples| ==> samples[k] == 0
    ensures var w := Sequential(samples); w.count == |samples| && w.meanFp == 0 && w.m2Fp == 0
  {
    if samples != [] {
      ZeroSamples(samples[..|samples| - 1]);
      NewMeanScaled(0.0, |samples| - 1, 0.0);
    }
  }

  /** The mean that `x` makes after `c - 1` zeros, and its deviation. */
  function SpikeMean(c: nat, x: real): real
    requires c > 0
  {
    NewMean(0.0, c - 1, x)
  }

  function SpikeM2(c: nat, x: real): real
    requires c > 0
  {
    NewM2(0.0, 0.0, SpikeMean(c, x), x)
  }

  lemma SpikeState(won: seq<nat>, x: nat)
    requires IsSpike(won, x)
    ensures Prior(won).meanFp == Prior(won).m2Fp == 0 && Sequential(won).count == |won|
    ensures Sequential(won).meanFp == ToFixed(SpikeMean(|won|, x as real))
    ensures Sequential(won).m2Fp == ToFixed(SpikeM2(|won|, x as real))
  {
    ZeroSamples(won[..|won| - 1]);
    assert FromFixed(0) == 0.0;
  }

  const ONE: nat := 0x1_0000_0000

  lemma FixedOne()
    ensures ToFixed(1.0) == ONE && FromFixed(ONE) == 1.0 && ToFixed(0.0) == 0
  {
  }

  lemma FixedFraction(u: real)
    requires 0.5 <= u < 1.0
    ensures 0 < ToFixed(u) < ONE
  {
  }

  /** A zero after a mean of 1 lowers it, but to no less than a half. */
  lemma ZeroAfterOne(c: nat) returns (u: real)
    requires c > 0
    ensures u == NewMean(1.0, c, 0.0) && 0.5 <= u < 1.0
  {
    var n := (c + 1) as real;
    u := NewMean(1.0, c, 0.0);
    NewMeanScaled(1.0, c, 0.0);
    assert n * u == c as real;
    CancelLess(0.5, u, n);
    CancelLess(u, 1.0, n);
    if u == 1.0 {
      assert false;
    }
  }

  lemma ZeroAfterZero(c: nat)
    ensures NewMean(0.0, c, 0.0) == 0.0
  {
    NewMeanScaled(0.0, c, 0.0);
    Cancel(NewMean(0.0, c, 0.0), 0.0, (c + 1) as real);
  }

  lemma SpikeMeanIs(c: nat, x: real)
    requires c > 0
    ensures c as real * SpikeMean(c, x) == x
  {
    NewMeanScaled(0.0, c - 1, x);
  }

  lemma LargeSpike(c: nat)
    requires c > 0
    ensures SpikeMean(c, c as real) == 1.0
  {
    SpikeMeanIs(c, c as real);
    Cancel(SpikeMean(c, c as real), 1.0, c as real);
  }

  /** With a sample as large as the count the mean is 1, and after a zero it is strictly below. */
  lemma SpikedMean(won: seq<nat>)
    requires IsSpike(won, |won|)
    ensures Prior(won).meanFp == 0 && Sequential(won).meanFp == ONE
    ensures Next(|won|, 0, 0, 0).meanFp == 0
    ensures 0 < Sequential(won + [0]).meanFp < ONE
  {
    LargeSpike(|won|);
    SpikeState(won, |won|);
    FixedOne();
    ZeroAfterZero(|won|);
    var u := ZeroAfterOne(|won|);
    FixedFraction(u);
    SequentialSnoc(won, 0);
  }

  /** The mean that is published does not depend on the deviation that was loaded. */
  lemma NextMean(count: nat, meanFp: nat, m2Fp: nat, v: nat)
    ensures Next(count, meanFp, m2Fp, v).meanFp == Next(count, meanFp, 0, v).meanFp
  {
  }

  /** What the sample 2 adds to the deviation around a mean of at most one. */
  lemma IncreaseBounds(mean: real, c: nat)
    requires 0.0 <= mean <= 1.0 && c > 0
    ensures 0.5 <= Increase(mean, NewMean(mean, c, 2.0), 2.0) <= 4.0
  {
    var u := NewMean(mean, c, 2.0);
    var d, e, n := 2.0 - mean, 2.0 - u, (c + 1) as real;
    NewMeanScaled(mean, c, 2.0);
    assert n * e == c as real * d;
    CancelLess(e, d, n) by {
      assert n * d == c as real * d + d;
    }
    CancelLess(d / 2.0, e, n) by {
      ProductMonotone(n / 2.0, c as real, d, d);
      assert n * (d / 2.0) == (n / 2.0) * d;
    }
    ProductMonotone(1.0, d, 0.5, e);
    ProductMonotone(d, 2.0, e, 2.0);
  }

  lemma FixedAdds(fp: nat, inc: real)
    requires FromFixed(fp) <= 1.0 && 0.5 <= inc <= 4.0
    ensures ToFixed(FromFixed(fp) + inc) > fp
    ensures fp >= 1 ==> ToFixed(FromFixed(fp) + inc) > ToFixed(0.0 + inc) - 1 + fp - 1
  {
  }

  /**
   * With a sample of 1 after zeros, and then a 2, the deviation is neither what it was before
   * the 2 nor, unless the 1 came first, what the 2 alone would have made it.
   */
  lemma SpikedDeviation(won: seq<nat>)
    requires IsSpike(won, 1)
    ensures Prior(won).m2Fp == 0
    ensures Sequential(won + [2]).m2Fp != Sequential(won).m2Fp
    ensures |won| >= 2 ==> Sequential(won + [2]).m2Fp != Next(|won|, Sequential(won).meanFp, 0, 2).m2Fp
  {
    var w := Sequential(won);
    SpikeState(won, 1);
    SpikeBounds(|won|);
    DeviationChanges(|won|, w.meanFp, w.m2Fp);
    SequentialSnoc(won, 2);
  }

  lemma SpikeBounds(c: nat)
    requires c > 0
    ensures FromFixed(ToFixed(SpikeMean(c, 1.0))) <= 1.0
    ensures FromFixed(ToFixed(SpikeM2(c, 1.0))) <= 1.0
    ensures c >= 2 ==> ToFixed(SpikeM2(c, 1.0)) >= 2
  {
    var u := SpikeMean(c, 1.0);
    SpikeMeanIs(c, 1.0);
    CancelLess(u, 1.0, c as real);
    CancelLess(0.0, u, c as real);
    if c >= 2 {
      CancelLess(u, 0.5, c as real);
    }
    assert SpikeM2(c, 1.0) == 1.0 - u;
    FixedOfUnit(u);
    FixedOfUnit(1.0 - u);
  }

  /** One more sample of 2, from stored fields that are at most one. */
  lemma DeviationChanges(c: nat, meanFp: nat, m2Fp: nat)
    requires c > 0 && FromFixed(meanFp) <= 1.0 && FromFixed(m2Fp) <= 1.0
    ensures Next(c, meanFp, m2Fp, 2).m2Fp != m2Fp
    ensures m2Fp >= 2 ==> Next(c, meanFp, m2Fp, 2).m2Fp != Next(c, meanFp, 0, 2).m2Fp
  {
    var mean := FromFixed(meanFp);
    IncreaseBounds(mean, c);
    var inc := Increase(mean, NewMean(mean, c, 2.0), 2.0);
    FixedAdds(m2Fp, inc);
    assert Next(c, meanFp, m2Fp, 2).m2Fp == ToFixed(FromFixed(m2Fp) + inc);
    assert Next(c, meanFp, 0, 2).m2Fp == ToFixed(0.0 + inc);
  }

  lemma FixedOfUnit(u: real)
    requires 0.0 <= u <= 1.0
    ensures 0.0 <= FromFixed(ToFixed(u)) <= 1.0 && (u >= 0.5 ==> ToFixed(u) >= 2)
  {
  }

  // ---------- An unsafe win goes wrong ----------

  /** Lets a thread in the window finish its stores. */
  lemma FinishStores(schedule: seq<Action>, i: nat) returns (longer: seq<Action>)
    requires IsSchedule(schedule) && i < |After(schedule).threads| && InWindow(After(schedule).threads[i].pc)
    ensures schedule <= longer && IsSchedule(longer)
    ensures var s, t := After(schedule), After(schedule).threads[i];
            After(longer) ==
            s.(meanFp := if t.pc.StoreMean? then t.pc.newMeanFp else s.meanFp, m2Fp := t.pc.newM2Fp,
               threads := s.threads[i := t.(pc := Done)])
  {
    longer := Extend(schedule, Advance(i, false));
    if After(schedule).threads[i].pc.StoreMean? {
      longer := Extend(longer, Advance(i, false));
    }
  }

  /** After `b` has won, it finishes its stores first, and then `a` finishes its own, if any. */
  lemma FinishBoth(schedule: seq<Action>, a: nat, b: nat) returns (longer: seq<Action>)
    requires IsSchedule(schedule) && a < |After(schedule).threads| && b < |After(schedule).threads| && a != b
    requires After(schedule).threads[b].pc.StoreMean?
    requires forall i :: 0 <= i < |After(schedule).threads| && InWindow(After(schedule).threads[i].pc) ==> i == a || i == b
    ensures schedule <= longer && IsSchedule(longer)
    ensures var s, s' := After(schedule), After(longer);
            var pa, pb := s.threads[a].pc, s.threads[b].pc;
            && NobodyInWindow(s') && s'.count == s.count && s'.won == s.won
            && s'.meanFp == (if pa.StoreMean? then pa.newMeanFp else pb.newMeanFp)
            && s'.m2Fp == (if InWindow(pa) then pa.newM2Fp else pb.newM2Fp)
  {
    longer := FinishStores(schedule, b);
    if InWindow(After(schedule).threads[a].pc) {
      longer := FinishStores(longer, a);
    }
  }

  /** The samples that show a win of `b` to be unsafe, `a` being the winner before. */
  function Telling(s: Shared, a: nat, b: nat): nat -> nat
    requires b < |s.threads| && s.threads[b].pc.Exchange?
  {
    if s.threads[b].pc.freshMean then Spike(a, 1, b, 2) else Spike(a, s.count, b, 0)
  }

  /** With telling samples, the fields are wrong once both winners have stored. */
  lemma UnsafeWinIsWrong(schedule: seq<Action>, a: nat, b: nat) returns (longer: seq<Action>)
    requires IsSchedule(schedule) && WinsAreSafe(schedule)
    requires var s := After(schedule);
             && s.winners != [] && a == s.winners[|s.winners| - 1]
             && Wins(s, Advance(b, false)) && !SafeWin(s, s.threads[b].pc)
             && forall j :: 0 <= j < |s.threads| ==> s.threads[j].value == Telling(s, a, b)(j)
    ensures IsSchedule(schedule + [Advance(b, false)])
    ensures schedule + [Advance(b, false)] <= longer && IsSchedule(longer)
    ensures After(longer).count == After(schedule + [Advance(b, false)]).count
    ensures NobodyInWindow(After(longer)) && !IsRight(After(longer))
  {
    var s := After(schedule);
    var pc := s.threads[b].pc;
    ReachableSerial(schedule);
    ReachableWon(schedule);
    var x, v := if pc.freshMean then 1 else s.count, if pc.freshMean then 2 else 0;
    SpikeIsWon(s, a, x, b, v);
    assert ThreadAgrees(s, Sequential(s.won), Prior(s.won), pc);
    assert ThreadAgrees(s, Sequential(s.won), Prior(s.won), s.threads[a].pc);
    var won := Extend(schedule, Advance(b, false));
    longer := FinishBoth(won, a, b);
    if pc.freshMean {
      SpikedDeviation(s.won);
      OneWinIsFirst(s);
    } else {
      SpikedMean(s.won);
      NextMean(pc.count, pc.meanFp, pc.m2Fp, 0);
    }
  }

  lemma OneWinIsFirst(s: Shared)
    requires Serial(s) && s.winners != [] && s.winners[|s.winners| - 1] < |s.threads|
    ensures !NobodyInWindow(s) ==> InWindow(s.threads[s.winners[|s.winners| - 1]].pc)
  {
  }

  /** A last action that is the first unsafe win, with telling samples. */
  lemma LastWinIsWrong(before: seq<Action>, action: Action) returns (other: seq<Action>)
    requires IsSchedule(before) && WinsAreSafe(before)
    requires Wins(After(before), action) && !SafeWin(After(before), After(before).threads[action.thread].pc)
    ensures SameShape(before + [action], other) && IsSchedule(other) && !StaysRight(other)
  {
    var s, b := After(before), action.thread;
    ReachableSerial(before);
    ReachableWon(before);
    assert ThreadAgrees(s, Sequential(s.won), Prior(s.won), s.threads[b].pc);
    var a := s.winners[|s.winners| - 1];
    var other' := Revalued(before, Telling(s, a, b));
    RevaluedSnoc(before, Telling(s, a, b));
    RevaluedSamples(before, Telling(s, a, b));
    ShapeDecidesControl(before, other');
    AdvanceKeepsControl(s, After(other'), b, false);
    assert Skeleton(s.threads[b].pc) == Skeleton(After(other').threads[b].pc);
    var longer := UnsafeWinIsWrong(other', a, b);
    other := other' + [action];
    SnocKeepsShape(before, other', action);
  }

  lemma SnocKeepsShape(x: seq<Action>, y: seq<Action>, a: Action)
    requires SameShape(x, y)
    ensures SameShape(x + [a], y + [a])
  {
    assert (x + [a])[..|x|] == x && (y + [a])[..|y|] == y;
  }

  /** The first unsafe win has samples for which the statistics go wrong before the next win. */
  lemma {:induction false} UnsafeIsWrong(schedule: seq<Action>) returns (other: seq<Action>)
    requires IsSchedule(schedule) && !WinsAreSafe(schedule)
    ensures SameShape(schedule, other) && IsSchedule(other) && !AlwaysRight(other)
  {
    var before, action := schedule[..|schedule| - 1], schedule[|schedule| - 1];
    assert schedule == before + [action];
    if !WinsAreSafe(before) {
      var other' := UnsafeIsWrong(before);
      other := other' + [action];
      SnocKeepsShape(before, other', action);
      assert other[..|other| - 1] == other';
      ShapeDecidesControl(schedule, other);
    } else {
      other := LastWinIsWrong(before, action);
    }
  }

  /**
   * The exact condition: a shape of schedule keeps mean and squared deviation right for all
   * samples, at every point and however things go on until the next win, if and only if every
   * exchange that wins in it is safe.
   */
  lemma RightForAllSamplesIff(schedule: seq<Action>)
    requires IsSchedule(schedule)
    ensures WinsAreSafe(schedule) <==>
            forall other: seq<Action> :: SameShape(schedule, other) ==> IsSchedule(other) && AlwaysRight(other)
  {
    if WinsAreSafe(schedule) {
      forall other: seq<Action> | SameShape(schedule, other) ensures IsSchedule(other) && AlwaysRight(other) {
        ShapeDecidesControl(schedule, other);
        SafeIsAlwaysRight(other);
      }
    } else {
      var other := UnsafeIsWrong(schedule);
    }
  }

  // ---------- The race ----------

  lemma NextOfEight()
    ensures Next(0, 0, 0, 8).meanFp == 8 * ONE && Next(1, 0, 0, 8).meanFp == 4 * ONE
    ensures Sequential([8, 8]).meanFp == 8 * ONE
  {
    assert NewMean(0.0, 0, 8.0) == 8.0 && NewMean(0.0, 1, 8.0) == 4.0 && NewMean(8.0, 1, 8.0) == 8.0;
    SequentialSnoc([], 8);
    SequentialSnoc([8], 8);
    assert [] + [8] == [8] && [8] + [8] == [8, 8];
    assert Sequential([8]).meanFp == 8 * ONE && Sequential([8]).count == 1;
    assert FromFixed(8 * ONE) == 8.0;
  }

  /** A thread starts over while another has won its exchange and not stored yet. */
  lemma StaleMeanIsLoaded(schedule: seq<Action>, winner: Thread) returns (longer: seq<Action>)
    requires IsSchedule(schedule) && winner.pc.StoreMean?
    requires After(schedule) == Shared(1, 0, 0, [winner, Thread(8, LoadCount)], [8], [0])
    ensures IsSchedule(longer)
    ensures After(longer) == Shared(1, 0, 0, [winner, Thread(8, Exchange(1, 0, 0, false, false))], [8], [0])
  {
    longer := Extend(schedule, Advance(1, false));
    assert After(longer) == Shared(1, 0, 0, [winner, Thread(8, LoadMean(1))], [8], [0]);
    assert After(longer).threads[0] == winner;
    longer := Extend(longer, Advance(1, false));
    assert After(longer) == Shared(1, 0, 0, [winner, Thread(8, LoadM2(1, 0, false))], [8], [0]);
    assert After(longer).threads[0] == winner && InWindow(winner.pc);
    longer := Extend(longer, Advance(1, false));
  }

  lemma FirstWin() returns (schedule: seq<Action>)
    ensures IsSchedule(schedule)
    ensures var next := Next(0, 0, 0, 8);
            After(schedule) ==
            Shared(1, 0, 0, [Thread(8, StoreMean(next.meanFp, next.m2Fp)), Thread(8, LoadCount)], [8], [0])
  {
    schedule := Extend([], Start(8));
    schedule := Extend(schedule, Start(8));
    schedule := Extend(schedule, Advance(0, false));
    schedule := Extend(schedule, Advance(0, false));
    schedule := Extend(schedule, Advance(0, false));
    assert After(schedule) ==
           Shared(0, 0, 0, [Thread(8, Exchange(0, 0, 0, true, true)), Thread(8, LoadCount)], [], []);
    schedule := Extend(schedule, Advance(0, false));
  }

  /** The exchange of the count alone does not protect the mean: two records of 8 can leave a mean of 4. */
  lemma ExchangeDoesNotProtectMean() returns (schedule: seq<Action>)
    ensures IsSchedule(schedule)
    ensures var s := After(schedule);
            && s.won == [8, 8] && (forall i :: 0 <= i < |s.threads| ==> s.threads[i].pc.Done?)
            && s.meanFp == 4 * ONE && Sequential(s.won).meanFp == 8 * ONE
  {
    NextOfEight();
    schedule := FirstWin();
    schedule := StaleMeanIsLoaded(schedule, After(schedule).threads[0]);
    schedule := Extend(schedule, Advance(1, false));
    schedule := Extend(schedule, Advance(0, false));
    schedule := Extend(schedule, Advance(0, false));
    schedule := Extend(schedule, Advance(1, false));
    schedule := Extend(schedule, Advance(1, false));
  }
}
