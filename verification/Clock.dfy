/**
 * The monotonic clock under any number of overlapping calls, one atomic access per step.
 *
 * `record_time` retries a compare-and-exchange; `now_ns` runs the same loop on a raw clock
 * reading. A stamping call goes on to take a sequence number.
 */
module Clock {
  import opened Wrappers

  datatype Pc =
    | Loading
    | Exchanging(last: u64)
    | Numbering(time: u64)
    | Finished(time: u64, number: Option<nat>)

  /** One call: its argument, whether it stamps, and the calls that had finished when it began. */
  datatype Call = Call(argument: u64, stamps: bool, finishedBefore: set<nat>, floor: u64, pc: Pc)

  datatype State = State(last: u64, sequence: nat, calls: seq<Call>)

  datatype Action = Begin(argument: u64, stamps: bool) | Advance(call: nat, spurious: bool)

  const INIT := State(0, 0, [])

  function Max(a: u64, b: u64): u64 {
    if a >= b then a else b
  }

  function FinishedCalls(calls: seq<Call>): set<nat> {
    set i: nat | i < |calls| && calls[i].pc.Finished?
  }

  predicate Enabled(s: State, a: Action) {
    match a
    case Begin(_, _) => true
    case Advance(i, _) => i < |s.calls| && !s.calls[i].pc.Finished?
  }

  /** The call has its timestamp: it returns, or goes on to take a number. */
  function Timed(c: Call, time: u64): Call {
    c.(pc := if c.stamps then Numbering(time) else Finished(time, None))
  }

  function Step(s: State, a: Action): State
    requires Enabled(s, a)
  {
    match a
    case Begin(argument, stamps) =>
      s.(calls := s.calls + [Call(argument, stamps, FinishedCalls(s.calls), s.last, Loading)])
    case Advance(i, spurious) =>
      var c := s.calls[i];
      match c.pc
      case Loading =>
        if Max(c.argument, s.last) == s.last
        then s.(calls := s.calls[i := Timed(c, s.last)])
        else s.(calls := s.calls[i := c.(pc := Exchanging(s.last))])
      case Exchanging(last) =>
        if s.last == last && !spurious
        then s.(last := Max(c.argument, last), calls := s.calls[i := Timed(c, Max(c.argument, last))])
        else s.(calls := s.calls[i := c.(pc := Loading)])
      case Numbering(time) =>
        s.(sequence := s.sequence + 1, calls := s.calls[i := c.(pc := Finished(time, Some(s.sequence)))])
  }

  predicate IsSchedule(schedule: seq<Action>)
    decreases |schedule|, 1
  {
    schedule == [] ||
    (IsSchedule(schedule[..|schedule| - 1]) &&
     Enabled(After(schedule[..|schedule| - 1]), schedule[|schedule| - 1]))
  }

  function After(schedule: seq<Action>): State
    requires IsSchedule(schedule)
    decreases |schedule|, 2
  {
    if schedule == [] then INIT
    else Step(After(schedule[..|schedule| - 1]), schedule[|schedule| - 1])
  }

  // ---------- The invariant ----------

  predicate HasTime(c: Call) {
    c.pc.Numbering? || c.pc.Finished?
  }

  ghost predicate CallAgrees(s: State, c: Call) {
    && c.floor <= s.last
    && (c.pc.Exchanging? ==> c.floor <= c.pc.last < c.argument)
    && (HasTime(c) ==> c.argument <= c.pc.time <= s.last && c.floor <= c.pc.time)
    && (c.pc.Finished? ==> c.stamps == c.pc.number.Some?)
    && (c.pc.Finished? && c.pc.number.Some? ==> c.pc.number.value < s.sequence)
    && (c.pc.Numbering? ==> c.stamps)
  }

  ghost predicate HistoryAgrees(calls: seq<Call>, j: nat)
    requires j < |calls|
  {
    forall i :: i in calls[j].finishedBefore ==>
      && i < |calls| && calls[i].pc.Finished? && calls[i].pc.time <= calls[j].floor
      && (calls[i].stamps && calls[j].pc.Finished? && calls[j].stamps ==>
            calls[i].pc.number.Some? && calls[j].pc.number.Some? && calls[i].pc.number.value < calls[j].pc.number.value)
  }

  predicate Numbered(c: Call) {
    c.pc.Finished? && c.pc.number.Some?
  }

  ghost predicate NumbersDistinct(calls: seq<Call>) {
    forall i, j :: 0 <= i < j < |calls| && Numbered(calls[i]) && Numbered(calls[j]) ==>
      calls[i].pc.number != calls[j].pc.number
  }

  ghost predicate Inv(s: State) {
    && (forall i :: 0 <= i < |s.calls| ==> CallAgrees(s, s.calls[i]))
    && (forall j :: 0 <= j < |s.calls| ==> HistoryAgrees(s.calls, j))
    && NumbersDistinct(s.calls)
    && (s.last == 0 || exists i :: 0 <= i < |s.calls| && s.calls[i].argument == s.last)
  }

  lemma BeginKeepsInv(s: State, argument: u64, stamps: bool)
    requires Inv(s)
    ensures Inv(Step(s, Begin(argument, stamps)))
  {
    var s' := Step(s, Begin(argument, stamps));
    var n := |s.calls|;
    assert forall i :: 0 <= i < n ==> s'.calls[i] == s.calls[i];
    forall i | 0 <= i < |s'.calls| ensures CallAgrees(s', s'.calls[i]) {
      if i < n {
        assert CallAgrees(s, s.calls[i]);
      }
    }
    forall j | 0 <= j < |s'.calls| ensures HistoryAgrees(s'.calls, j) {
      if j < n {
        assert HistoryAgrees(s.calls, j);
      } else {
        forall i | i in s'.calls[j].finishedBefore ensures s.calls[i].pc.time <= s.last {
          assert CallAgrees(s, s.calls[i]);
        }
      }
    }
  }

  /** Replacing one call: what must be checked of the new state. */
  lemma ReplaceKeepsInv(s: State, s': State, i: nat, c: Call)
    requires Inv(s) && i < |s.calls| && !s.calls[i].pc.Finished?
    requires c.argument == s.calls[i].argument && c.stamps == s.calls[i].stamps
    requires c.finishedBefore == s.calls[i].finishedBefore && c.floor == s.calls[i].floor
    requires s'.calls == s.calls[i := c] && s.last <= s'.last && s.sequence <= s'.sequence
    requires s'.last == s.last || s'.last == c.argument
    requires CallAgrees(s', c)
    requires c.pc.Finished? && c.stamps ==> c.pc.number == Some(s.sequence)
    ensures Inv(s')
  {
    forall j | 0 <= j < |s'.calls| ensures CallAgrees(s', s'.calls[j]) {
      assert CallAgrees(s, s.calls[j]);
    }
    forall j | 0 <= j < |s'.calls| ensures HistoryAgrees(s'.calls, j) {
      assert HistoryAgrees(s.calls, j);
      forall k | k in s.calls[j].finishedBefore
        ensures s.calls[k].pc.number.Some? ==> s.calls[k].pc.number.value < s.sequence
      {
        assert CallAgrees(s, s.calls[k]);
      }
    }
    forall j | 0 <= j < |s.calls| && s.calls[j].pc.Finished? && s.calls[j].pc.number.Some?
      ensures s.calls[j].pc.number.value < s.sequence
    {
      assert CallAgrees(s, s.calls[j]);
    }
    if s'.last == s.last && s.last != 0 {
      var j :| 0 <= j < |s.calls| && s.calls[j].argument == s.last;
      assert s'.calls[j].argument == s'.last;
    } else if s'.last != 0 {
      assert s'.calls[i].argument == s'.last;
    }
  }

  lemma StepKeepsInv(s: State, a: Action)
    requires Inv(s) && Enabled(s, a)
    ensures Inv(Step(s, a)) && s.last <= Step(s, a).last
  {
    match a
    case Begin(argument, stamps) => BeginKeepsInv(s, argument, stamps);
    case Advance(i, _) =>
      assert CallAgrees(s, s.calls[i]);
      var s' := Step(s, a);
      ReplaceKeepsInv(s, s', i, s'.calls[i]);
  }

  lemma {:induction false} ReachableInv(schedule: seq<Action>)
    requires IsSchedule(schedule)
    ensures Inv(After(schedule))
  {
    if schedule != [] {
      ReachableInv(schedule[..|schedule| - 1]);
      StepKeepsInv(After(schedule[..|schedule| - 1]), schedule[|schedule| - 1]);
    }
  }

  /** The shared timestamp never decreases along a schedule. */
  lemma {:induction false} NeverDecreases(schedule: seq<Action>, k: nat)
    requires IsSchedule(schedule) && k <= |schedule|
    ensures IsSchedule(schedule[..k])
    ensures After(schedule[..k]).last <= After(schedule).last
  {
    if k == |schedule| {
      assert schedule[..k] == schedule;
    } else {
      var before := schedule[..|schedule| - 1];
      NeverDecreases(before, k);
      assert before[..k] == schedule[..k];
      ReachableInv(before);
      StepKeepsInv(After(before), schedule[|schedule| - 1]);
    }
  }

  /**
   * In every interleaving a finished call returns at least its argument and at least what
   * every call returned that had finished before it began.
   */
  lemma ReturnsAreMonotone(schedule: seq<Action>, i: nat, j: nat)
    requires IsSchedule(schedule) && j < |After(schedule).calls| && After(schedule).calls[j].pc.Finished?
    ensures var calls := After(schedule).calls;
            && calls[j].argument <= calls[j].pc.time <= After(schedule).last
            && (i in calls[j].finishedBefore ==>
                  i < |calls| && calls[i].pc.Finished? && calls[i].pc.time <= calls[j].pc.time)
  {
    ReachableInv(schedule);
    var s := After(schedule);
    assert CallAgrees(s, s.calls[j]) && HistoryAgrees(s.calls, j);
  }

  /** Stamps never share a number, and stamps that do not overlap are numbered in order. */
  lemma StampsAreNumbered(schedule: seq<Action>, i: nat, j: nat)
    requires IsSchedule(schedule)
    requires i < |After(schedule).calls| && j < |After(schedule).calls| && i != j
    requires After(schedule).calls[i].pc.Finished? && After(schedule).calls[i].stamps
    requires After(schedule).calls[j].pc.Finished? && After(schedule).calls[j].stamps
    ensures var ci, cj := After(schedule).calls[i], After(schedule).calls[j];
            && ci.pc.number.Some? && cj.pc.number.Some? && ci.pc.number != cj.pc.number
            && (i in cj.finishedBefore ==> ci.pc.number.value < cj.pc.number.value)
  {
    ReachableInv(schedule);
    var s := After(schedule);
    assert CallAgrees(s, s.calls[i]) && CallAgrees(s, s.calls[j]) && HistoryAgrees(s.calls, j);
  }

  function MaxArgument(calls: seq<Call>): u64 {
    if calls == [] then 0 else Max(MaxArgument(calls[..|calls| - 1]), calls[|calls| - 1].argument)
  }

  lemma {:induction false} MaxArgumentIs(calls: seq<Call>, m: u64)
    requires m == 0 || exists i :: 0 <= i < |calls| && calls[i].argument == m
    requires forall i :: 0 <= i < |calls| ==> calls[i].argument <= m
    ensures MaxArgument(calls) == m
  {
    MaxArgumentBounds(calls);
  }

  lemma {:induction false} MaxArgumentBounds(calls: seq<Call>)
    ensures forall i :: 0 <= i < |calls| ==> calls[i].argument <= MaxArgument(calls)
    ensures MaxArgument(calls) == 0 || exists i :: 0 <= i < |calls| && calls[i].argument == MaxArgument(calls)
  {
    if calls != [] {
      var before := calls[..|calls| - 1];
      MaxArgumentBounds(before);
      if MaxArgument(before) != 0 && MaxArgument(calls) == MaxArgument(before) {
        var i :| 0 <= i < |before| && before[i].argument == MaxArgument(before);
        assert calls[i].argument == MaxArgument(calls);
      }
    }
  }

  /** When no call is under way, the shared timestamp is the largest argument ever given. */
  lemma QuiescentIsMaximum(schedule: seq<Action>)
    requires IsSchedule(schedule)
    requires forall i :: 0 <= i < |After(schedule).calls| ==> After(schedule).calls[i].pc.Finished?
    ensures After(schedule).last == MaxArgument(After(schedule).calls)
  {
    ReachableInv(schedule);
    var s := After(schedule);
    forall i | 0 <= i < |s.calls| ensures s.calls[i].argument <= s.last {
      assert CallAgrees(s, s.calls[i]);
    }
    MaxArgumentIs(s.calls, s.last);
  }

  /** In some continuation both stamps are done and `i` has the larger number. */
  ghost predicate CanBeNumberedAfter(schedule: seq<Action>, i: nat, j: nat)
    requires IsSchedule(schedule)
  {
    exists longer: seq<Action> :: schedule <= longer && IsSchedule(longer) && IsNumberedAfter(After(longer), i, j)
  }

  predicate IsNumberedAfter(s: State, i: nat, j: nat) {
    && i < |s.calls| && j < |s.calls| && Numbered(s.calls[i]) && Numbered(s.calls[j])
    && s.calls[i].pc.number.value > s.calls[j].pc.number.value
  }

  /** Once `i` is numbered it stays so, and `j`, if it is not, is numbered later. */
  lemma {:induction false} NumbersStay(schedule: seq<Action>, longer: seq<Action>, i: nat, j: nat)
    requires IsSchedule(schedule) && IsSchedule(longer) && schedule <= longer
    requires var s := After(schedule); i < |s.calls| && j < |s.calls| && Numbered(s.calls[i])
    ensures var s, s' := After(schedule), After(longer);
            && |s.calls| <= |s'.calls| && s'.calls[i] == s.calls[i] && s.sequence <= s'.sequence
            && (Numbered(s.calls[j]) ==> s'.calls[j] == s.calls[j])
            && (!Numbered(s.calls[j]) && Numbered(s'.calls[j]) ==> s'.calls[j].pc.number.value >= s.sequence)
  {
    if |longer| == |schedule| {
      assert longer == schedule;
    } else {
      NumbersStay(schedule, longer[..|longer| - 1], i, j);
    }
  }

  /** Takes the numbers of two calls that have their times, the one of `j` first. */
  lemma NumberBoth(schedule: seq<Action>, i: nat, j: nat) returns (longer: seq<Action>)
    requires IsSchedule(schedule) && i < |After(schedule).calls| && j < |After(schedule).calls| && i != j
    requires var calls := After(schedule).calls;
             && calls[i].pc.Numbering?
             && (calls[j].pc.Numbering? ||
                 (Numbered(calls[j]) && calls[j].pc.number.value < After(schedule).sequence))
    ensures schedule <= longer && IsSchedule(longer) && IsNumberedAfter(After(longer), i, j)
  {
    longer := schedule;
    if After(schedule).calls[j].pc.Numbering? {
      longer := Extend(longer, Advance(j, false));
    }
    longer := Extend(longer, Advance(i, false));
  }

  /**
   * Exactly when two stamps can be numbered against the order of their times: as long as the
   * earlier one has its time but not its number, or if it has happened already.
   */
  lemma StampsMayInvertIff(schedule: seq<Action>, i: nat, j: nat)
    requires IsSchedule(schedule) && i < |After(schedule).calls| && j < |After(schedule).calls|
    requires var ci, cj := After(schedule).calls[i], After(schedule).calls[j];
             ci.stamps && cj.stamps && HasTime(ci) && HasTime(cj) && ci.pc.time < cj.pc.time
    ensures CanBeNumberedAfter(schedule, i, j) <==>
            After(schedule).calls[i].pc.Numbering? || IsNumberedAfter(After(schedule), i, j)
  {
    ReachableInv(schedule);
    var s := After(schedule);
    assert CallAgrees(s, s.calls[i]) && CallAgrees(s, s.calls[j]);
    if s.calls[i].pc.Numbering? {
      var longer := NumberBoth(schedule, i, j);
    } else if CanBeNumberedAfter(schedule, i, j) {
      var longer: seq<Action> :|
        schedule <= longer && IsSchedule(longer) && IsNumberedAfter(After(longer), i, j);
      NumbersStay(schedule, longer, i, j);
    }
  }

  /**
   * Overlapping stamps, by contrast, may be numbered against the order of their times: the
   * time and the number are taken in two steps.
   */
  lemma OverlappingStampsMayInvert() returns (schedule: seq<Action>)
    ensures IsSchedule(schedule) && |After(schedule).calls| == 2
    ensures After(schedule).calls[0].pc == Finished(5, Some(1))
    ensures After(schedule).calls[1].pc == Finished(9, Some(0))
  {
    var c0, c1 := Call(5, true, {}, 0, Loading), Call(9, true, {}, 5, Loading);
    var d0, d1 := c0.(pc := Numbering(5)), c1.(pc := Numbering(9));
    assert FinishedCalls([]) == {} && FinishedCalls([d0]) == {};
    schedule := [];
    schedule := Extend(schedule, Begin(5, true));
    assert After(schedule) == State(0, 0, [c0]);
    schedule := Extend(schedule, Advance(0, false));
    schedule := Extend(schedule, Advance(0, false));
    assert After(schedule) == State(5, 0, [d0]);
    schedule := Extend(schedule, Begin(9, true));
    assert After(schedule) == State(5, 0, [d0, c1]);
    schedule := Extend(schedule, Advance(1, false));
    schedule := Extend(schedule, Advance(1, false));
    assert After(schedule) == State(9, 0, [d0, d1]);
    schedule := Extend(schedule, Advance(1, false));
    schedule := Extend(schedule, Advance(0, false));
  }

  lemma Extend(schedule: seq<Action>, a: Action) returns (longer: seq<Action>)
    requires IsSchedule(schedule) && Enabled(After(schedule), a)
    ensures longer == schedule + [a] && IsSchedule(longer) && After(longer) == Step(After(schedule), a)
  {
    longer := schedule + [a];
    assert longer[..|schedule|] == schedule;
  }

  // ---------- The class ----------

  /** The clock as the source writes it, each call running on its own. */
  class MonotonicClock {
    var lastTimestamp: u64
    var sequence: nat

    constructor ()
      ensures lastTimestamp == 0 && sequence == 0
    {
      lastTimestamp, sequence := 0, 0;
    }

    /** The exchange may fail spuriously, as often as the caller says. */
    method RecordTime(timestampNs: u64, spurious: nat) returns (r: u64)
      modifies this`lastTimestamp
      ensures r == lastTimestamp == Max(timestampNs, old(lastTimestamp))
    {
      var failures := spurious;
      while true
        invariant lastTimestamp == old(lastTimestamp)
        decreases failures
      {
        var last := lastTimestamp;
        var newTs := Max(timestampNs, last);
        if newTs == last {
          return last;
        }
        if failures == 0 {
          lastTimestamp := newTs;
          return newTs;
        }
        failures := failures - 1;
      }
    }

    method StampWithTime<T>(data: T, timestampNs: u64, spurious: nat) returns (r: Timestamped<T>)
      modifies this
      ensures r == Timestamped(Max(timestampNs, old(lastTimestamp)), old(sequence), data)
      ensures lastTimestamp == r.timestampNs && sequence == old(sequence) + 1
    {
      var actual := RecordTime(timestampNs, spurious);
      r := Timestamped(actual, sequence, data);
      sequence := sequence + 1;
    }

    /** Numbers start again, but the time does not go back. */
    method ResetSeq()
      modifies this`sequence
      ensures sequence == 0
    {
      sequence := 0;
    }
  }
}
