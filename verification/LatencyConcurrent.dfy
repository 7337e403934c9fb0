/**
 * Any number of recorders and a percentile scan on one histogram, one atomic access per step.
 * There is no reset.
 */
module LatencyConcurrent {
  import opened Wrappers
  import opened Bits
  import opened Sums
  import opened Latency

  datatype Pc =
    | AddBucket
    | AddCount
    | AddSum
    | LoadMin
    | CasMin(current: nat)
    | LoadMax
    | CasMax(current: nat)
    | Done

  datatype Recorder = Recorder(value: u64, pc: Pc)

  /** `share` and `start` are histories: what was asked for, and the buckets when the scan loaded the count. */
  datatype Reader =
    | Idle
    | Scanning(share: real, loaded: nat, target: nat, next: nat, cumulative: nat, start: seq<nat>)
    | Returned(bucket: nat, share: real, loaded: nat, target: nat, start: seq<nat>)
    | FellThrough

  datatype State = State(
    buckets: seq<nat>, count: nat, sum: nat, min: nat, max: nat,
    recorders: seq<Recorder>, reader: Reader)

  datatype Action =
    | Start(value: u64)
    | Advance(thread: nat, spurious: bool)
    | BeginScan(p: real)
    | ScanNext

  function Init(): State {
    State(seq(NUM_BUCKETS, _ => 0), 0, 0, U64_MAX, 0, [], Idle)
  }

  predicate Enabled(s: State, a: Action) {
    |s.buckets| == NUM_BUCKETS &&
    match a
    case Start(_) => true
    case Advance(i, _) => i < |s.recorders| && !s.recorders[i].pc.Done?
    case BeginScan(p) => 0.0 <= p <= 1.0
    case ScanNext => s.reader.Scanning? && s.reader.next < NUM_BUCKETS
  }

  /** The head of the loop that lowers the minimum, with the value just loaded. */
  function MinLoop(value: u64, current: nat): Pc {
    if value < current then CasMin(current) else LoadMax
  }

  function MaxLoop(value: u64, current: nat): Pc {
    if value > current then CasMax(current) else Done
  }

  function StepRecorder(s: State, i: nat, spurious: bool): State
    requires Enabled(s, Advance(i, spurious))
  {
    var v := s.recorders[i].value;
    var b := BucketFor(v);
    match s.recorders[i].pc
    case AddBucket => s.(buckets := s.buckets[b := s.buckets[b] + 1], recorders := MoveTo(s, i, AddCount))
    case AddCount => s.(count := s.count + 1, recorders := MoveTo(s, i, AddSum))
    case AddSum => s.(sum := (s.sum + v) % WORD_MODULUS, recorders := MoveTo(s, i, LoadMin))
    case LoadMin => s.(recorders := MoveTo(s, i, MinLoop(v, s.min)))
    case CasMin(current) =>
      if s.min == current && !spurious then s.(min := v, recorders := MoveTo(s, i, LoadMax))
      else s.(recorders := MoveTo(s, i, MinLoop(v, s.min)))
    case LoadMax => s.(recorders := MoveTo(s, i, MaxLoop(v, s.max)))
    case CasMax(current) =>
      if s.max == current && !spurious then s.(max := v, recorders := MoveTo(s, i, Done))
      else s.(recorders := MoveTo(s, i, MaxLoop(v, s.max)))
  }

  function MoveTo(s: State, i: nat, pc: Pc): seq<Recorder>
    requires i < |s.recorders|
  {
    s.recorders[i := Recorder(s.recorders[i].value, pc)]
  }

  function Step(s: State, a: Action): State
    requires Enabled(s, a)
  {
    match a
    case Start(v) => s.(recorders := s.recorders + [Recorder(v, AddBucket)])
    case Advance(i, spurious) => StepRecorder(s, i, spurious)
    case BeginScan(p) =>
      if s.count == 0 then s.(reader := Idle)
      else s.(reader := Scanning(p, s.count, Target(s.count, p), 0, 0, s.buckets))
    case ScanNext =>
      var total := s.reader.cumulative + s.buckets[s.reader.next];
      if total >= s.reader.target then
        s.(reader := Returned(s.reader.next, s.reader.share, s.reader.loaded, s.reader.target, s.reader.start))
      else if s.reader.next + 1 == NUM_BUCKETS then s.(reader := FellThrough)
      else s.(reader := s.reader.(next := s.reader.next + 1, cumulative := total))
  }

  predicate IsSchedule(schedule: seq<Action>)
    decreases |schedule|, 1
  {
    schedule == [] ||
    (IsSchedule(schedule[..|schedule| - 1]) &&
     Enabled(After(schedule[..|schedule| - 1]), schedule[|schedule| - 1]))
  }

  function After(schedule: seq<Action>): State
    requires IsSchedule(schedule)
    decreases |schedule|, 2
  {
    if schedule == [] then Init()
    else Step(After(schedule[..|schedule| - 1]), schedule[|schedule| - 1])
  }

  // ---------- Totals over the recorders ----------

  /** What one recorder has contributed so far to a shared total. */
  datatype Share = InBucket(b: nat) | Counted | Summed | InFlight

  function Rank(pc: Pc): nat {
    match pc
    case AddBucket => 0
    case AddCount => 1
    case AddSum => 2
    case LoadMin => 3
    case CasMin(_) => 3
    case LoadMax => 4
    case CasMax(_) => 4
    case Done => 5
  }

  function Weight(share: Share): Recorder -> nat {
    (r: Recorder) =>
      match share
      case InBucket(b) => if Rank(r.pc) >= 1 && BucketFor(r.value) == b then 1 else 0
      case Counted => if Rank(r.pc) >= 2 then 1 else 0
      case Summed => if Rank(r.pc) >= 3 then r.value else 0
      case InFlight => if Rank(r.pc) == 1 then 1 else 0
  }

  lemma TallyStart(share: Share, recorders: seq<Recorder>, v: u64)
    ensures Tally(Weight(share), recorders + [Recorder(v, AddBucket)]) == Tally(Weight(share), recorders)
  {
    assert (recorders + [Recorder(v, AddBucket)])[..|recorders|] == recorders;
  }

  ghost predicate BucketsAgree(s: State) {
    |s.buckets| == NUM_BUCKETS &&
    forall b: nat :: b < NUM_BUCKETS ==> s.buckets[b] == Tally(Weight(InBucket(b)), s.recorders)
  }

  /** The bucket total runs ahead of `count` by the recorders between their first two steps. */
  ghost predicate TotalsAgree(s: State) {
    && BucketsAgree(s)
    && s.count == Tally(Weight(Counted), s.recorders)
    && s.sum == Tally(Weight(Summed), s.recorders) % WORD_MODULUS
    && Total(s.buckets) == s.count + Tally(Weight(InFlight), s.recorders)
  }

  ghost predicate ExtremesAgree(recorders: seq<Recorder>, lo: nat, hi: nat) {
    && (lo == U64_MAX || exists i :: 0 <= i < |recorders| && recorders[i].value == lo)
    && (hi == 0 || exists i :: 0 <= i < |recorders| && recorders[i].value == hi)
    && (forall i :: 0 <= i < |recorders| ==> RecorderAgrees(recorders[i], lo, hi))
  }

  /** A recorder past its loop on an extreme has pushed that extreme far enough. */
  ghost predicate RecorderAgrees(r: Recorder, lo: nat, hi: nat) {
    && (Rank(r.pc) >= 4 ==> lo <= r.value)
    && (Rank(r.pc) >= 5 ==> hi >= r.value)
    && (r.pc.CasMin? ==> r.value < r.pc.current)
    && (r.pc.CasMax? ==> r.value > r.pc.current)
  }

  /** What the scan has added up, with what is still ahead of it, covers the count it loaded. */
  ghost predicate ReaderAgrees(s: State) {
    match s.reader
    case Idle => true
    case Scanning(_, loaded, target, next, cumulative, _) =>
      && target <= loaded
      && next < NUM_BUCKETS <= |s.buckets|
      && loaded <= cumulative + Total(s.buckets[next..])
    case Returned(b, _, _, _, _) => b < NUM_BUCKETS
    case FellThrough => false
  }

  ghost predicate Inv(s: State) {
    TotalsAgree(s) && ExtremesAgree(s.recorders, s.min, s.max) && ReaderAgrees(s)
  }

  lemma TallyMove(share: Share, s: State, i: nat, pc: Pc)
    requires i < |s.recorders|
    ensures var r, r' := s.recorders[i], Recorder(s.recorders[i].value, pc);
            Tally(Weight(share), MoveTo(s, i, pc)) == Tally(Weight(share), s.recorders) - Weight(share)(r) + Weight(share)(r')
  {
    TallyUpdate(Weight(share), s.recorders, i, Recorder(s.recorders[i].value, pc));
  }

  lemma AddBucketTotals(s: State, i: nat, s': State)
    requires TotalsAgree(s) && i < |s.recorders| && s.recorders[i].pc.AddBucket?
    requires var b := BucketFor(s.recorders[i].value);
             s' == s.(buckets := s.buckets[b := s.buckets[b] + 1], recorders := MoveTo(s, i, AddCount))
    ensures TotalsAgree(s')
  {
    var bucket := BucketFor(s.recorders[i].value);
    forall b: nat | b < NUM_BUCKETS ensures s'.buckets[b] == Tally(Weight(InBucket(b)), s'.recorders) {
      TallyMove(InBucket(b), s, i, AddCount);
    }
    TallyMove(Counted, s, i, AddCount);
    TallyMove(Summed, s, i, AddCount);
    TallyMove(InFlight, s, i, AddCount);
    TotalUpdate(s.buckets, bucket, s.buckets[bucket] + 1);
  }

  lemma AddBucketReader(s: State, b: nat, s': State)
    requires ReaderAgrees(s) && b < |s.buckets|
    requires s'.buckets == s.buckets[b := s.buckets[b] + 1] && s'.reader == s.reader
    ensures ReaderAgrees(s')
  {
    if s.reader.Scanning? {
      var next := s.reader.next;
      if b >= next {
        TotalUpdate(s.buckets[next..], b - next, s.buckets[b] + 1);
        assert s'.buckets[next..] == s.buckets[next..][b - next := s.buckets[b] + 1];
      } else {
        assert s'.buckets[next..] == s.buckets[next..];
      }
    }
  }

  lemma LaterBuckets(s: State, i: nat, pc: Pc, s': State)
    requires BucketsAgree(s) && i < |s.recorders| && 1 <= Rank(s.recorders[i].pc) <= Rank(pc)
    requires s'.recorders == MoveTo(s, i, pc) && s'.buckets == s.buckets
    ensures BucketsAgree(s')
  {
    forall b: nat | b < NUM_BUCKETS ensures s'.buckets[b] == Tally(Weight(InBucket(b)), s'.recorders) {
      TallyMove(InBucket(b), s, i, pc);
    }
  }

  /** Past the bucket, `count` and `sum` follow the recorder's progress. */
  lemma LaterTotals(s: State, i: nat, pc: Pc, s': State)
    requires TotalsAgree(s) && i < |s.recorders|
    requires 1 <= Rank(s.recorders[i].pc) <= Rank(pc) <= Rank(s.recorders[i].pc) + 2
    requires Rank(s.recorders[i].pc) <= 2 ==> Rank(pc) == Rank(s.recorders[i].pc) + 1
    requires s'.recorders == MoveTo(s, i, pc) && s'.buckets == s.buckets
    requires s'.count == s.count + if s.recorders[i].pc.AddCount? then 1 else 0
    requires s'.sum == if s.recorders[i].pc.AddSum? then (s.sum + s.recorders[i].value) % WORD_MODULUS else s.sum
    ensures TotalsAgree(s')
  {
    LaterBuckets(s, i, pc, s');
    TallyMove(Counted, s, i, pc);
    TallyMove(Summed, s, i, pc);
    TallyMove(InFlight, s, i, pc);
    ModAdd(Tally(Weight(Summed), s.recorders), s.recorders[i].value, WORD_MODULUS);
  }

  lemma ExtremesMove(s: State, i: nat, pc: Pc, lo: nat, hi: nat)
    requires ExtremesAgree(s.recorders, s.min, s.max) && i < |s.recorders|
    requires lo == s.min || lo == s.recorders[i].value < s.min
    requires hi == s.max || hi == s.recorders[i].value > s.max
    requires RecorderAgrees(Recorder(s.recorders[i].value, pc), lo, hi)
    ensures ExtremesAgree(MoveTo(s, i, pc), lo, hi)
  {
    var moved := MoveTo(s, i, pc);
    assert moved[i].value == s.recorders[i].value;
    if s.min != U64_MAX {
      var j :| 0 <= j < |s.recorders| && s.recorders[j].value == s.min;
      assert moved[j].value == s.min;
    }
    if s.max != 0 {
      var j :| 0 <= j < |s.recorders| && s.recorders[j].value == s.max;
      assert moved[j].value == s.max;
    }
    forall j | 0 <= j < |moved| ensures RecorderAgrees(moved[j], lo, hi) {
      assert RecorderAgrees(s.recorders[j], s.min, s.max);
    }
  }

  /** What a step past the first one does to the totals and the reader. */
  lemma LaterStep(s: State, i: nat, spurious: bool)
    requires Enabled(s, Advance(i, spurious)) && !s.recorders[i].pc.AddBucket?
    ensures var s', pc := StepRecorder(s, i, spurious), s.recorders[i].pc;
            && i < |s'.recorders| && s'.recorders == MoveTo(s, i, s'.recorders[i].pc)
            && 1 <= Rank(pc) <= Rank(s'.recorders[i].pc) <= Rank(pc) + 2
            && (Rank(pc) <= 2 ==> Rank(s'.recorders[i].pc) == Rank(pc) + 1)
            && s'.buckets == s.buckets && s'.reader == s.reader
            && s'.count == s.count + (if pc.AddCount? then 1 else 0)
            && s'.sum == if pc.AddSum? then (s.sum + s.recorders[i].value) % WORD_MODULUS else s.sum
  {
  }

  /** What any step does to the extremes. */
  lemma ExtremesStep(s: State, i: nat, spurious: bool)
    requires ExtremesAgree(s.recorders, s.min, s.max) && Enabled(s, Advance(i, spurious))
    ensures var s' := StepRecorder(s, i, spurious); ExtremesAgree(s'.recorders, s'.min, s'.max)
  {
    var s' := StepRecorder(s, i, spurious);
    assert RecorderAgrees(s.recorders[i], s.min, s.max);
    ExtremesMove(s, i, s'.recorders[i].pc, s'.min, s'.max);
  }

  lemma StepRecorderKeepsInv(s: State, i: nat, spurious: bool)
    requires Inv(s) && Enabled(s, Advance(i, spurious))
    ensures Inv(StepRecorder(s, i, spurious))
  {
    var s' := StepRecorder(s, i, spurious);
    ExtremesStep(s, i, spurious);
    if s.recorders[i].pc.AddBucket? {
      AddBucketTotals(s, i, s');
      AddBucketReader(s, BucketFor(s.recorders[i].value), s');
    } else {
      LaterStep(s, i, spurious);
      LaterTotals(s, i, s'.recorders[i].pc, s');
    }
  }

  lemma TotalFrom(xs: seq<nat>, k: nat)
    requires k < |xs|
    ensures Total(xs[k..]) == xs[k] + Total(xs[k + 1..])
    ensures k + 1 == |xs| ==> Total(xs[k + 1..]) == 0
  {
    assert xs[k..] == [xs[k]] + xs[k + 1..];
    TotalConcat([xs[k]], xs[k + 1..]);
    assert [xs[k]][..0] == [];
    assert Total([xs[k]]) == xs[k];
  }

  lemma ScanStep(s: State)
    requires ReaderAgrees(s) && Enabled(s, ScanNext)
    ensures ReaderAgrees(Step(s, ScanNext))
  {
    TotalFrom(s.buckets, s.reader.next);
  }

  lemma StartKeepsTotals(s: State, v: u64)
    requires TotalsAgree(s) && Enabled(s, Start(v))
    ensures TotalsAgree(Step(s, Start(v)))
  {
    forall share: Share
      ensures Tally(Weight(share), Step(s, Start(v)).recorders) == Tally(Weight(share), s.recorders)
    {
      TallyStart(share, s.recorders, v);
    }
  }

  lemma StartKeepsInv(s: State, v: u64)
    requires Inv(s) && Enabled(s, Start(v))
    ensures Inv(Step(s, Start(v)))
  {
    var s' := Step(s, Start(v));
    StartKeepsTotals(s, v);
    assert forall i :: 0 <= i < |s.recorders| ==> s'.recorders[i] == s.recorders[i];
    assert ReaderAgrees(s');
  }

  lemma StepKeepsInv(s: State, a: Action)
    requires Inv(s) && Enabled(s, a)
    ensures Inv(Step(s, a))
  {
    match a
    case Start(v) => StartKeepsInv(s, v);
    case Advance(i, spurious) => StepRecorderKeepsInv(s, i, spurious);
    case BeginScan(p) =>
      assert s.buckets[0..] == s.buckets;
    case ScanNext =>
      ScanStep(s);
      assert Step(s, a) == s.(reader := Step(s, a).reader);
  }

  lemma {:induction false} ReachableInv(schedule: seq<Action>)
    requires IsSchedule(schedule)
    ensures Inv(After(schedule))
  {
    if schedule == [] {
      TotalZero(Init().buckets);
    } else {
      ReachableInv(schedule[..|schedule| - 1]);
      StepKeepsInv(After(schedule[..|schedule| - 1]), schedule[|schedule| - 1]);
    }
  }

  /**
   * In every interleaving the buckets together hold at least `count` samples, and a percentile
   * scan never reaches the value behind its loop.
   */
  lemma ScanNeverFallsThrough(schedule: seq<Action>)
    requires IsSchedule(schedule)
    ensures After(schedule).count <= Total(After(schedule).buckets)
    ensures !After(schedule).reader.FellThrough?
  {
    ReachableInv(schedule);
  }

  // ---------- What a concurrent scan returns ----------

  predicate BelowEach(start: seq<nat>, buckets: seq<nat>) {
    |start| == |buckets| == NUM_BUCKETS && forall b :: 0 <= b < NUM_BUCKETS ==> start[b] <= buckets[b]
  }

  lemma {:induction false} TotalMonotone(xs: seq<nat>, ys: seq<nat>)
    requires |xs| == |ys| && forall i :: 0 <= i < |xs| ==> xs[i] <= ys[i]
    ensures Total(xs) <= Total(ys)
  {
    if xs != [] {
      TotalMonotone(xs[..|xs| - 1], ys[..|ys| - 1]);
    }
  }

  /** What the scan has added up lies between what was there at its start and what is there now. */
  ghost predicate ScanAgrees(s: State) {
    match s.reader
    case Scanning(_, loaded, target, next, cumulative, start) =>
      && loaded <= Total(start)
      && BelowEach(start, s.buckets) && next < NUM_BUCKETS
      && Total(start[..next]) <= cumulative <= Total(s.buckets[..next])
      && (next > 0 ==> cumulative < target)
    case Returned(b, _, loaded, target, start) =>
      && loaded <= Total(start)
      && BelowEach(start, s.buckets) && b < NUM_BUCKETS
      && target <= Total(s.buckets[..b + 1])
      && (b > 0 ==> Total(start[..b]) < target)
    case _ => true
  }

  lemma BucketsOnlyGrow(s: State, s': State)
    requires ScanAgrees(s) && s'.reader == s.reader && |s.buckets| == |s'.buckets| == NUM_BUCKETS
    requires forall b :: 0 <= b < NUM_BUCKETS ==> s.buckets[b] <= s'.buckets[b]
    ensures ScanAgrees(s')
  {
    if s.reader.Scanning? {
      TotalMonotone(s.buckets[..s.reader.next], s'.buckets[..s.reader.next]);
    } else if s.reader.Returned? {
      TotalMonotone(s.buckets[..s.reader.bucket + 1], s'.buckets[..s.reader.bucket + 1]);
    }
  }

  lemma TotalOfPrefix(xs: seq<nat>, k: nat)
    requires k < |xs|
    ensures Total(xs[..k + 1]) == Total(xs[..k]) + xs[k]
  {
    assert xs[..k + 1][..k] == xs[..k];
  }

  lemma ScanNextAgrees(s: State)
    requires ScanAgrees(s) && Enabled(s, ScanNext)
    ensures ScanAgrees(Step(s, ScanNext))
  {
    var next, start, s' := s.reader.next, s.reader.start, Step(s, ScanNext);
    TotalOfPrefix(s.buckets, next);
    TotalOfPrefix(start, next);
    assert start[next] <= s.buckets[next];
    var total := s.reader.cumulative + s.buckets[next];
    assert Total(start[..next + 1]) <= total <= Total(s.buckets[..next + 1]);
    assert s'.buckets == s.buckets && BelowEach(start, s'.buckets);
  }

  lemma RecorderAddsOnly(s: State, i: nat, spurious: bool)
    requires Enabled(s, Advance(i, spurious))
    ensures var s' := StepRecorder(s, i, spurious);
            && s'.reader == s.reader && |s'.buckets| == NUM_BUCKETS
            && forall b :: 0 <= b < NUM_BUCKETS ==> s.buckets[b] <= s'.buckets[b]
  {
  }

  lemma BeginScanAgrees(s: State, p: real)
    requires TotalsAgree(s) && Enabled(s, BeginScan(p))
    ensures ScanAgrees(Step(s, BeginScan(p)))
  {
    assert s.buckets[..0] == [];
  }

  /** The rank that the scan is after, of the count that it loaded. */
  ghost predicate HasTarget(r: Reader) {
    && (r.Scanning? ==> 0.0 <= r.share <= 1.0 && r.target == Target(r.loaded, r.share))
    && (r.Returned? ==> 0.0 <= r.share <= 1.0 && r.target == Target(r.loaded, r.share))
  }

  lemma ReaderKeepsTarget(s: State, a: Action)
    requires HasTarget(s.reader) && Enabled(s, a)
    ensures HasTarget(Step(s, a).reader)
  {
    match a
    case Advance(i, spurious) => RecorderAddsOnly(s, i, spurious);
    case _ =>
  }

  lemma {:induction false} ReachableTarget(schedule: seq<Action>)
    requires IsSchedule(schedule)
    ensures HasTarget(After(schedule).reader)
  {
    if schedule != [] {
      ReachableTarget(schedule[..|schedule| - 1]);
      ReaderKeepsTarget(After(schedule[..|schedule| - 1]), schedule[|schedule| - 1]);
    }
  }

  lemma {:induction false} ReachableScan(schedule: seq<Action>)
    requires IsSchedule(schedule)
    ensures ScanAgrees(After(schedule))
  {
    if schedule != [] {
      var s, a := After(schedule[..|schedule| - 1]), schedule[|schedule| - 1];
      ReachableScan(schedule[..|schedule| - 1]);
      match a
      case Start(_) => {}
      case Advance(i, spurious) =>
        RecorderAddsOnly(s, i, spurious);
        BucketsOnlyGrow(s, Step(s, a));
      case BeginScan(p) =>
        ReachableInv(schedule[..|schedule| - 1]);
        BeginScanAgrees(s, p);
      case ScanNext => ScanNextAgrees(s);
    }
  }

  /**
   * A scan under concurrent recording returns a bucket at which the target is reached by what is
   * in the histogram by then, and below which it was not reached by what was there at its start.
   * The target is the share asked for of the count loaded, rounded up.
   */
  lemma ScanIsBracketed(schedule: seq<Action>)
    requires IsSchedule(schedule) && After(schedule).reader.Returned?
    ensures var s, r := After(schedule), After(schedule).reader;
            && r.bucket < NUM_BUCKETS == |s.buckets| == |r.start|
            && (forall b :: 0 <= b < NUM_BUCKETS ==> r.start[b] <= s.buckets[b])
            && IsRank(r.loaded, r.share, r.target)
            && r.loaded <= Total(r.start)
            && r.target <= Total(s.buckets[..r.bucket + 1])
            && (r.bucket > 0 ==> Total(r.start[..r.bucket]) < r.target)
  {
    ReachableScan(schedule);
    ReachableTarget(schedule);
    var r := After(schedule).reader;
    TargetIs(r.loaded, r.share);
  }

  // ---------- When all recorders are done ----------

  function Values(recorders: seq<Recorder>): seq<nat> {
    if recorders == [] then []
    else Values(recorders[..|recorders| - 1]) + [recorders[|recorders| - 1].value as nat]
  }

  /** What recording the values one after the other contributes to a shared total. */
  function Recorded(share: Share, values: seq<nat>): nat {
    match share
    case InBucket(b) => CountIn(values, b)
    case Counted => |values|
    case Summed => Total(values)
    case InFlight => 0
  }

  lemma {:induction false} TallyWhenDone(share: Share, recorders: seq<Recorder>)
    requires forall i :: 0 <= i < |recorders| ==> recorders[i].pc.Done?
    ensures Tally(Weight(share), recorders) == Recorded(share, Values(recorders))
  {
    if recorders != [] {
      var before, last := recorders[..|recorders| - 1], recorders[|recorders| - 1];
      TallyWhenDone(share, before);
      var values := Values(recorders);
      assert values[..|values| - 1] == Values(before) && values[|values| - 1] == last.value;
    }
  }

  lemma {:induction false} ExtremesOf(recorders: seq<Recorder>, lo: nat, hi: nat)
    requires lo == U64_MAX || exists i :: 0 <= i < |recorders| && recorders[i].value == lo
    requires hi == 0 || exists i :: 0 <= i < |recorders| && recorders[i].value == hi
    requires forall i :: 0 <= i < |recorders| ==> lo <= recorders[i].value <= hi
    ensures MinOf(Values(recorders)) == lo && MaxOf(Values(recorders)) == hi
  {
    ValuesAre(recorders);
    var values := Values(recorders);
    MinOfBounds(values);
    MaxOfBounds(values);
    MinMaxAttained(values);
  }

  lemma {:induction false} ValuesAre(recorders: seq<Recorder>)
    ensures |Values(recorders)| == |recorders|
    ensures forall i :: 0 <= i < |recorders| ==> Values(recorders)[i] == recorders[i].value
  {
    if recorders != [] {
      ValuesAre(recorders[..|recorders| - 1]);
    }
  }

  lemma {:induction false} MinMaxAttained(values: seq<nat>)
    requires forall i :: 0 <= i < |values| ==> values[i] <= U64_MAX
    ensures MinOf(values) <= U64_MAX
    ensures MinOf(values) == U64_MAX || MinOf(values) in values
    ensures MaxOf(values) == 0 || MaxOf(values) in values
  {
    if values != [] {
      MinMaxAttained(values[..|values| - 1]);
    }
  }

  lemma ExtremesWhenDone(s: State)
    requires ExtremesAgree(s.recorders, s.min, s.max)
    requires forall i :: 0 <= i < |s.recorders| ==> s.recorders[i].pc.Done?
    ensures s.min == MinOf(Values(s.recorders)) && s.max == MaxOf(Values(s.recorders))
  {
    forall i | 0 <= i < |s.recorders| ensures s.min <= s.recorders[i].value <= s.max {
      assert RecorderAgrees(s.recorders[i], s.min, s.max);
    }
    ExtremesOf(s.recorders, s.min, s.max);
  }

  /**
   * Once every recorder has finished, the histogram is the one that recording the same values
   * one after the other leaves: buckets, count, sum and both extremes.
   */
  lemma QuiescentIsSequential(schedule: seq<Action>, b: nat)
    requires IsSchedule(schedule) && b < NUM_BUCKETS
    requires forall i :: 0 <= i < |After(schedule).recorders| ==> After(schedule).recorders[i].pc.Done?
    ensures var s := After(schedule);
            var values := Values(s.recorders);
            && |s.buckets| == NUM_BUCKETS && s.buckets[b] == CountIn(values, b)
            && s.count == |values| == Total(s.buckets)
            && s.sum == Total(values) % WORD_MODULUS
            && s.min == MinOf(values) && s.max == MaxOf(values)
  {
    ReachableInv(schedule);
    var s := After(schedule);
    TallyWhenDone(InBucket(b), s.recorders);
    TallyWhenDone(Counted, s.recorders);
    TallyWhenDone(Summed, s.recorders);
    TallyWhenDone(InFlight, s.recorders);
    ExtremesWhenDone(s);
  }
}
