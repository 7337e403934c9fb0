/**
 * The timestamp synchroniser: a circular buffer of secondary readings that primary readings
 * are matched against, and that matches prune.
 */
module Fusion {
  import opened Wrappers
  import opened Bits

  datatype SyncedPair<+A, +B> =
    SyncedPair(primary: Timestamped<A>, secondary: Timestamped<B>, timeDiffNs: u64)

  datatype SyncInput<+A, +B> = Primary(a: Timestamped<A>) | Secondary(b: Timestamped<B>)

  datatype Buffer<+T> = Buffer(slots: seq<Option<Timestamped<T>>>, writeIdx: nat, count: nat)

  datatype Sync<+T> = Sync(buffer: Buffer<T>, unmatched: nat)

  function AbsDiff(a: u64, b: u64): u64 {
    if a >= b then a - b else b - a
  }

  function SaturatingSub(a: nat, b: nat): nat {
    if a >= b then a - b else 0
  }

  // ---------- The operations on values ----------

  function EmptyBuffer<T>(capacity: nat): Buffer<T> {
    Buffer(seq(capacity, _ => None), 0, 0)
  }

  function Push<T>(b: Buffer<T>, v: Timestamped<T>): Buffer<T>
    requires b.writeIdx < |b.slots|
  {
    Buffer(b.slots[b.writeIdx := Some(v)],
           (b.writeIdx + 1) % |b.slots|,
           if b.count < |b.slots| then b.count + 1 else b.count)
  }

  /** Within the tolerance on either side. The largest distance there is never counts as within it. */
  predicate InReach(t: u64, target: u64, tolerance: u64) {
    target - tolerance <= t <= target + tolerance && target - U64_MAX < t < target + U64_MAX
  }

  /** Strictly between `s` and the mirror image of `s` about the target. */
  predicate Nearer(t: u64, s: u64, target: u64) {
    2 * target - s < t < s || s < t < 2 * target - s
  }

  predicate AsNear(t: u64, s: u64, target: u64) {
    t == s || t + s == 2 * target
  }

  /** A slot that a search for `target` may return. */
  predicate Candidate<T>(slot: Option<Timestamped<T>>, target: u64, tolerance: u64) {
    slot.Some? && InReach(slot.value.timestampNs, target, tolerance)
  }

  /** The nearest candidate, the earliest slot winning a tie. */
  function Closest<T>(slots: seq<Option<Timestamped<T>>>, target: u64, tolerance: u64): Option<Timestamped<T>> {
    if slots == [] then None
    else
      var best := Closest(slots[..|slots| - 1], target, tolerance);
      var slot := slots[|slots| - 1];
      if Candidate(slot, target, tolerance) &&
         (best.None? || AbsDiff(target, slot.value.timestampNs) < AbsDiff(target, best.value.timestampNs))
      then slot else best
  }

  predicate Older<T>(slot: Option<Timestamped<T>>, cutoff: nat) {
    slot.Some? && slot.value.timestampNs < cutoff
  }

  function PruneSlots<T>(slots: seq<Option<Timestamped<T>>>, cutoff: nat): (r: seq<Option<Timestamped<T>>>)
    ensures |r| == |slots|
  {
    seq(|slots|, i requires 0 <= i < |slots| => if Older(slots[i], cutoff) then None else slots[i])
  }

  function RemovedCount<T>(slots: seq<Option<Timestamped<T>>>, cutoff: nat): nat {
    if slots == [] then 0
    else RemovedCount(slots[..|slots| - 1], cutoff) + if Older(slots[|slots| - 1], cutoff) then 1 else 0
  }

  function PruneBefore<T>(b: Buffer<T>, cutoff: nat): Buffer<T> {
    b.(slots := PruneSlots(b.slots, cutoff),
       count := SaturatingSub(b.count, RemovedCount(b.slots, cutoff)))
  }

  function MakePair<A, B>(primary: Timestamped<A>, secondary: Timestamped<B>): SyncedPair<A, B> {
    SyncedPair(primary, secondary, AbsDiff(primary.timestampNs, secondary.timestampNs))
  }

  function Process<A, B>(s: Sync<B>, tolerance: u64, input: SyncInput<A, B>): (Sync<B>, Option<SyncedPair<A, B>>)
    requires s.buffer.writeIdx < |s.buffer.slots|
  {
    match input
    case Secondary(b) => (s.(buffer := Push(s.buffer, b)), None)
    case Primary(a) =>
      match Closest(s.buffer.slots, a.timestampNs, tolerance)
      case Some(b) =>
        var cutoff := SaturatingSub(a.timestampNs, tolerance);
        (s.(buffer := PruneBefore(s.buffer, cutoff)), Some(MakePair(a, b)))
      case None => (s.(unmatched := s.unmatched + 1), None)
  }

  /** The synchroniser and its outputs after a sequence of inputs. */
  function Run<A, B>(capacity: nat, tolerance: u64, inputs: seq<SyncInput<A, B>>)
    : (r: (Sync<B>, seq<Option<SyncedPair<A, B>>>))
    requires capacity > 0
    ensures |r.0.buffer.slots| == capacity && r.0.buffer.writeIdx < capacity
  {
    if inputs == [] then (Sync(EmptyBuffer(capacity), 0), [])
    else
      var (s, outputs) := Run(capacity, tolerance, inputs[..|inputs| - 1]);
      var (s', output) := Process(s, tolerance, inputs[|inputs| - 1]);
      (s', outputs + [output])
  }

  // ---------- The specification: no pruning, only the last readings ----------

  function Readings<A, B>(inputs: seq<SyncInput<A, B>>): seq<Timestamped<B>> {
    if inputs == [] then []
    else
      var before := Readings(inputs[..|inputs| - 1]);
      match inputs[|inputs| - 1]
      case Secondary(b) => before + [b]
      case Primary(_) => before
  }

  /** The reading that sits in slot `j` when nothing is ever pruned. */
  function ReadingAt<T>(readings: seq<Timestamped<T>>, capacity: nat, j: nat): Option<Timestamped<T>>
    requires j < capacity
  {
    if |readings| <= j then None
    else
      var laps := (|readings| - 1 - j) / capacity;
      assert capacity * laps <= |readings| - 1 - j;
      Some(readings[j + capacity * laps])
  }

  /** The last `capacity` readings, each in the slot that its position gives it. */
  function LastReadings<T>(readings: seq<Timestamped<T>>, capacity: nat): (r: seq<Option<Timestamped<T>>>)
    ensures |r| == capacity
  {
    seq(capacity, j requires 0 <= j < capacity => ReadingAt(readings, capacity, j))
  }

  function SpecOutput<A, B>(capacity: nat, tolerance: u64, readings: seq<Timestamped<B>>, input: SyncInput<A, B>)
    : Option<SyncedPair<A, B>>
  {
    match input
    case Secondary(_) => None
    case Primary(a) =>
      match Closest(LastReadings(readings, capacity), a.timestampNs, tolerance)
      case Some(b) => Some(MakePair(a, b))
      case None => None
  }

  /** The outputs and the unmatched count of a synchroniser that remembers everything. */
  function SpecRun<A, B>(capacity: nat, tolerance: u64, inputs: seq<SyncInput<A, B>>)
    : (nat, seq<Option<SyncedPair<A, B>>>)
  {
    if inputs == [] then (0, [])
    else
      var before, input := inputs[..|inputs| - 1], inputs[|inputs| - 1];
      var (unmatched, outputs) := SpecRun(capacity, tolerance, before);
      var output := SpecOutput(capacity, tolerance, Readings(before), input);
      (if input.Primary? && output.None? then unmatched + 1 else unmatched, outputs + [output])
  }

  lemma {:induction false} OutputsPerInput<A, B>(capacity: nat, tolerance: u64, inputs: seq<SyncInput<A, B>>)
    requires capacity > 0
    ensures |Run(capacity, tolerance, inputs).1| == |SpecRun(capacity, tolerance, inputs).1| == |inputs|
  {
    if inputs != [] {
      OutputsPerInput(capacity, tolerance, inputs[..|inputs| - 1]);
    }
  }

  // ---------- What the specification means ----------

  /** Reading `k` is one of the last `capacity` and a candidate. */
  ghost predicate Eligible<T>(readings: seq<Timestamped<T>>, capacity: nat, target: u64, tolerance: u64, k: nat) {
    k < |readings| <= k + capacity && Candidate(Some(readings[k]), target, tolerance)
  }

  /** The order in which eligible readings are preferred: nearer first, then by slot. */
  ghost predicate Preferred<T>(readings: seq<Timestamped<T>>, capacity: nat, target: u64, k: nat, l: nat)
    requires k < |readings| && l < |readings| && capacity > 0
  {
    var tk, tl := readings[k].timestampNs, readings[l].timestampNs;
    Nearer(tk, tl, target) || (AsNear(tk, tl, target) && k % capacity < l % capacity)
  }

  /** What the distance says about two readings, and what it is. */
  lemma DistanceIs(target: u64, t: u64, s: u64)
    ensures AbsDiff(target, t) < AbsDiff(target, s) <==> Nearer(t, s, target)
    ensures AbsDiff(target, t) == AbsDiff(target, s) <==> AsNear(t, s, target)
    ensures target <= t ==> target + AbsDiff(target, t) == t
    ensures t <= target ==> t + AbsDiff(target, t) == target
  {
  }

  lemma ReachIs(target: u64, t: u64, tolerance: u64)
    ensures InReach(t, target, tolerance) <==> AbsDiff(target, t) <= tolerance && AbsDiff(target, t) < U64_MAX
  {
  }

  lemma {:induction false} ClosestIsNearest<T>(slots: seq<Option<Timestamped<T>>>, target: u64, tolerance: u64)
    returns (j: nat)
    ensures var r := Closest(slots, target, tolerance);
      if r.None? then forall i :: 0 <= i < |slots| ==> !Candidate(slots[i], target, tolerance)
      else
        && j < |slots| && slots[j] == r && Candidate(r, target, tolerance)
        && (forall i :: 0 <= i < |slots| && i != j && slots[i].Some? ==>
              var ti, tj := slots[i].value.timestampNs, r.value.timestampNs;
              !Nearer(ti, tj, target) && (AsNear(ti, tj, target) ==> j < i))
  {
    j := 0;
    if slots != [] {
      var before, slot := slots[..|slots| - 1], slots[|slots| - 1];
      j := ClosestIsNearest(before, target, tolerance);
      assert forall i :: 0 <= i < |before| ==> before[i] == slots[i];
      var best := Closest(before, target, tolerance);
      if slot.Some? && best.Some? {
        DistanceIs(target, slot.value.timestampNs, best.value.timestampNs);
      }
      if Closest(slots, target, tolerance) != best {
        j := |slots| - 1;
      }
    }
  }

  /** Slot `j` is in reach, no live slot is nearer, and none before it is as near. */
  ghost predicate IsFirstNearest<T>(slots: seq<Option<Timestamped<T>>>, target: u64, tolerance: u64, j: nat) {
    && j < |slots| && slots[j].Some? && InReach(slots[j].value.timestampNs, target, tolerance)
    && forall i :: 0 <= i < |slots| && slots[i].Some? ==>
         var ti, tj := slots[i].value.timestampNs, slots[j].value.timestampNs;
         !Nearer(ti, tj, target) && (i < j ==> !AsNear(ti, tj, target))
  }

  /** What a search is to find, in terms of timestamps alone. */
  ghost predicate IsNearest<T>(slots: seq<Option<Timestamped<T>>>, target: u64, tolerance: u64,
                               r: Option<Timestamped<T>>) {
    if r.None? then
      forall i :: 0 <= i < |slots| && slots[i].Some? ==> !InReach(slots[i].value.timestampNs, target, tolerance)
    else
      exists j :: 0 <= j < |slots| && slots[j] == r && IsFirstNearest(slots, target, tolerance, j)
  }

  lemma ClosestMeetsSpec<T>(slots: seq<Option<Timestamped<T>>>, target: u64, tolerance: u64)
    ensures IsNearest(slots, target, tolerance, Closest(slots, target, tolerance))
  {
    var j := ClosestIsNearest(slots, target, tolerance);
    if Closest(slots, target, tolerance).Some? {
      assert IsFirstNearest(slots, target, tolerance, j);
    } else {
      forall i | 0 <= i < |slots| && slots[i].Some?
        ensures !InReach(slots[i].value.timestampNs, target, tolerance)
      {
        assert !Candidate(slots[i], target, tolerance);
      }
    }
  }

  /** There is one slot to find, so the search is fixed by what it is to find. */
  lemma NearestIsUnique<T>(slots: seq<Option<Timestamped<T>>>, target: u64, tolerance: u64,
                           r: Option<Timestamped<T>>, r': Option<Timestamped<T>>)
    requires IsNearest(slots, target, tolerance, r) && IsNearest(slots, target, tolerance, r')
    ensures r == r'
  {
    if r.Some? && r'.Some? {
      var j :| 0 <= j < |slots| && slots[j] == r && IsFirstNearest(slots, target, tolerance, j);
      var k :| 0 <= k < |slots| && slots[k] == r' && IsFirstNearest(slots, target, tolerance, k);
      OneIsAsNear(r.value.timestampNs, r'.value.timestampNs, target);
    }
  }

  lemma OneIsAsNear(t: u64, s: u64, target: u64)
    ensures Nearer(t, s, target) || Nearer(s, t, target) || (AsNear(t, s, target) && AsNear(s, t, target))
  {
  }

  /** A pair of these two readings, with the time between them. */
  ghost predicate IsPairOf<A, B>(pair: SyncedPair<A, B>, primary: Timestamped<A>, secondary: Timestamped<B>) {
    var p, s := primary.timestampNs, secondary.timestampNs;
    && pair.primary == primary && pair.secondary == secondary
    && if p <= s then p + pair.timeDiffNs == s else s + pair.timeDiffNs == p
  }

  function Match<A, B>(pair: Option<SyncedPair<A, B>>): Option<Timestamped<B>> {
    if pair.Some? then Some(pair.value.secondary) else None
  }

  /** What becomes of a primary. */
  lemma PrimaryIsMatched<A, B>(s: Sync<B>, tolerance: u64, a: Timestamped<A>)
    requires s.buffer.writeIdx < |s.buffer.slots|
    ensures var (s', r) := Process(s, tolerance, Primary(a));
            && IsNearest(s.buffer.slots, a.timestampNs, tolerance, Match(r))
            && (r.Some? ==> IsPairOf(r.value, a, r.value.secondary))
            && s'.unmatched == s.unmatched + if r.None? then 1 else 0
  {
    ClosestMeetsSpec(s.buffer.slots, a.timestampNs, tolerance);
    var found := Closest(s.buffer.slots, a.timestampNs, tolerance);
    if found.Some? {
      DistanceIs(a.timestampNs, found.value.timestampNs, found.value.timestampNs);
    }
  }

  /** Slot `j` holds the one reading of the last `capacity` whose position is `j` modulo it. */
  lemma SlotOfReading<T>(readings: seq<Timestamped<T>>, capacity: nat, k: nat)
    requires k < |readings| <= k + capacity
    ensures k % capacity < capacity
    ensures LastReadings(readings, capacity)[k % capacity] == Some(readings[k])
  {
    var j := k % capacity;
    var laps := (|readings| - 1 - j) / capacity;
    ModUnique(|readings| - 1 - j, capacity, k / capacity, |readings| - 1 - k);
  }

  lemma ReadingOfSlot<T>(readings: seq<Timestamped<T>>, capacity: nat, j: nat) returns (k: nat)
    requires j < capacity && LastReadings(readings, capacity)[j].Some?
    ensures k < |readings| <= k + capacity && k % capacity == j
  {
    var laps := (|readings| - 1 - j) / capacity;
    k := j + capacity * laps;
    ModUnique(k, capacity, laps, j);
  }

  /**
   * Searching the last readings finds the nearest eligible one, ties broken by slot; it finds
   * nothing exactly when none is eligible.
   */
  lemma NearestOfLastReadings<T>(readings: seq<Timestamped<T>>, capacity: nat, target: u64, tolerance: u64)
    returns (k: nat)
    requires capacity > 0
    ensures var r := Closest(LastReadings(readings, capacity), target, tolerance);
      if r.None? then forall l: nat :: !Eligible(readings, capacity, target, tolerance, l)
      else
        && Eligible(readings, capacity, target, tolerance, k) && r == Some(readings[k])
        && (forall l: nat :: l != k && Eligible(readings, capacity, target, tolerance, l) ==>
              Preferred(readings, capacity, target, k, l))
  {
    var slots := LastReadings(readings, capacity);
    var j := ClosestIsNearest(slots, target, tolerance);
    k := 0;
    if Closest(slots, target, tolerance).Some? {
      k := ReadingOfSlot(readings, capacity, j);
      SlotOfReading(readings, capacity, k);
    }
    forall l: nat | Eligible(readings, capacity, target, tolerance, l)
      ensures Closest(slots, target, tolerance).Some?
      ensures l != k ==> Preferred(readings, capacity, target, k, l)
    {
      SlotOfReading(readings, capacity, l);
      assert Candidate(slots[l % capacity], target, tolerance);
      if l != k && l % capacity == k % capacity {
        if l < k { ModInjective(l, k, capacity); } else { ModInjective(k, l, capacity); }
      }
    }
  }

  // ---------- Pruning changes nothing ----------

  function PrimaryTimes<A, B>(inputs: seq<SyncInput<A, B>>): seq<u64> {
    if inputs == [] then []
    else
      var before := PrimaryTimes(inputs[..|inputs| - 1]);
      match inputs[|inputs| - 1]
      case Primary(a) => before + [a.timestampNs]
      case Secondary(_) => before
  }

  predicate Nondecreasing(times: seq<u64>) {
    forall i, j :: 0 <= i < j < |times| ==> times[i] <= times[j]
  }

  /** No primary is followed by an earlier one, except where its cutoff is zero. */
  predicate NeverStepsBack(times: seq<u64>, tolerance: u64) {
    forall i, j :: 0 <= i < j < |times| ==> times[i] <= times[j] || times[i] <= tolerance
  }

  /** The latest primary that may have pruned anything. */
  function PruneBound(times: seq<u64>, tolerance: u64): nat {
    if times == [] then 0
    else
      var bound, last := PruneBound(times[..|times| - 1], tolerance), times[|times| - 1];
      if last > tolerance && last > bound then last else bound
  }

  lemma {:induction false} PruneBoundBelow(times: seq<u64>, tolerance: u64, next: nat)
    requires forall i :: 0 <= i < |times| ==> times[i] <= next || times[i] <= tolerance
    ensures PruneBound(times, tolerance) <= next
  {
    if times != [] {
      PruneBoundBelow(times[..|times| - 1], tolerance, next);
    }
  }

  /** The pruned slots are the full ones, but for readings too old for any later primary. */
  ghost predicate PrunedFrom<T>(slots: seq<Option<Timestamped<T>>>, full: seq<Option<Timestamped<T>>>,
                                tolerance: nat, lastPrimary: nat) {
    |slots| == |full| &&
    forall j :: 0 <= j < |slots| ==>
      slots[j] == full[j] ||
      (slots[j] == None && full[j].Some? && full[j].value.timestampNs + tolerance < lastPrimary)
  }

  lemma {:induction false} ClosestIgnoresPruned<T>(slots: seq<Option<Timestamped<T>>>, full: seq<Option<Timestamped<T>>>,
                                                   target: u64, tolerance: u64, lastPrimary: nat)
    requires PrunedFrom(slots, full, tolerance, lastPrimary) && lastPrimary <= target
    ensures Closest(slots, target, tolerance) == Closest(full, target, tolerance)
  {
    if slots != [] {
      ClosestIgnoresPruned(slots[..|slots| - 1], full[..|full| - 1], target, tolerance, lastPrimary);
      assert slots[|slots| - 1] == full[|full| - 1] || !Candidate(full[|full| - 1], target, tolerance);
    }
  }

  /** A push puts the new reading into the slot that the specification gives it. */
  lemma PushMatchesReadings<T>(readings: seq<Timestamped<T>>, capacity: nat, v: Timestamped<T>, j: nat)
    requires j < capacity
    ensures ReadingAt(readings + [v], capacity, j)
            == if j == |readings| % capacity then Some(v) else ReadingAt(readings, capacity, j)
  {
    var n := |readings|;
    if j == n % capacity {
      SlotOfReading(readings + [v], capacity, n);
    } else if n > j {
      var laps := (n - 1 - j) / capacity;
      var k := ReadingOfSlot(readings, capacity, j);
      SlotOfReading(readings, capacity, k);
      if n == k + capacity {
        ModAddLap(k, capacity);
      } else {
        SlotOfReading(readings + [v], capacity, k);
      }
    } else if n == j {
      ModUnique(n, capacity, 0, n);
    }
  }

  lemma LastReadingsSnoc<T>(readings: seq<Timestamped<T>>, capacity: nat, v: Timestamped<T>)
    requires capacity > 0
    ensures |readings| % capacity < capacity
    ensures LastReadings(readings + [v], capacity) == LastReadings(readings, capacity)[|readings| % capacity := Some(v)]
    ensures (|readings| % capacity + 1) % capacity == |readings + [v]| % capacity
  {
    forall j | 0 <= j < capacity
      ensures LastReadings(readings + [v], capacity)[j]
              == if j == |readings| % capacity then Some(v) else LastReadings(readings, capacity)[j]
    {
      PushMatchesReadings(readings, capacity, v, j);
    }
    ModSucc(|readings|, capacity);
  }

  lemma PushKeepsPrunedFrom<T>(b: Buffer<T>, readings: seq<Timestamped<T>>, v: Timestamped<T>,
                               tolerance: nat, lastPrimary: nat)
    requires |b.slots| > 0 && b.writeIdx == |readings| % |b.slots|
    requires PrunedFrom(b.slots, LastReadings(readings, |b.slots|), tolerance, lastPrimary)
    ensures PrunedFrom(Push(b, v).slots, LastReadings(readings + [v], |b.slots|), tolerance, lastPrimary)
    ensures Push(b, v).writeIdx == |readings + [v]| % |b.slots|
  {
    LastReadingsSnoc(readings, |b.slots|, v);
  }

  ghost predicate Agrees<A, B>(capacity: nat, tolerance: u64, inputs: seq<SyncInput<A, B>>)
    requires capacity > 0
  {
    var (s, outputs) := Run(capacity, tolerance, inputs);
    var readings := Readings(inputs);
    && s.buffer.writeIdx == |readings| % capacity
    && PrunedFrom(s.buffer.slots, LastReadings(readings, capacity), tolerance, PruneBound(PrimaryTimes(inputs), tolerance))
    && (s.unmatched, outputs) == SpecRun(capacity, tolerance, inputs)
  }

  lemma PrefixNeverStepsBack(times: seq<u64>, longer: seq<u64>, tolerance: u64)
    requires times <= longer && NeverStepsBack(longer, tolerance)
    ensures NeverStepsBack(times, tolerance)
  {
    assert forall i :: 0 <= i < |times| ==> longer[i] == times[i];
  }

  lemma {:induction false} RunAgrees<A, B>(capacity: nat, tolerance: u64, inputs: seq<SyncInput<A, B>>)
    requires capacity > 0 && NeverStepsBack(PrimaryTimes(inputs), tolerance)
    ensures Agrees(capacity, tolerance, inputs)
  {
    if inputs != [] {
      var before, input := inputs[..|inputs| - 1], inputs[|inputs| - 1];
      var times := PrimaryTimes(before);
      PrefixNeverStepsBack(times, PrimaryTimes(inputs), tolerance);
      RunAgrees(capacity, tolerance, before);
      var s := Run(capacity, tolerance, before).0;
      var full := LastReadings(Readings(before), capacity);
      match input {
        case Secondary(b) =>
          PushKeepsPrunedFrom(s.buffer, Readings(before), b, tolerance, PruneBound(times, tolerance));
        case Primary(a) =>
          PrimaryAgrees(capacity, tolerance, before, a);
          assert PrimaryTimes(inputs)[..|times|] == times;
      }
    }
  }

  lemma PrimaryPrunes<A, B>(s: Sync<B>, tolerance: u64, a: Timestamped<A>)
    requires s.buffer.writeIdx < |s.buffer.slots|
    ensures var slots := Process(s, tolerance, Primary(a)).0.buffer.slots;
            slots == s.buffer.slots || slots == PruneSlots(s.buffer.slots, SaturatingSub(a.timestampNs, tolerance))
  {
  }

  /** A primary no earlier than those that pruned before it finds the same reading. */
  lemma PrimaryAgrees<A, B>(capacity: nat, tolerance: u64, before: seq<SyncInput<A, B>>, a: Timestamped<A>)
    requires capacity > 0 && Agrees(capacity, tolerance, before)
    requires NeverStepsBack(PrimaryTimes(before) + [a.timestampNs], tolerance)
    ensures var (s, times) := (Run(capacity, tolerance, before).0, PrimaryTimes(before));
            var full := LastReadings(Readings(before), capacity);
            && Closest(s.buffer.slots, a.timestampNs, tolerance) == Closest(full, a.timestampNs, tolerance)
            && PrunedFrom(Process(s, tolerance, Primary(a)).0.buffer.slots, full, tolerance,
                          PruneBound(times + [a.timestampNs], tolerance))
  {
    var s, times := Run(capacity, tolerance, before).0, PrimaryTimes(before);
    var full := LastReadings(Readings(before), capacity);
    var bound, next := PruneBound(times, tolerance), PruneBound(times + [a.timestampNs], tolerance);
    NextBound(times, a.timestampNs, tolerance);
    ClosestIgnoresPruned(s.buffer.slots, full, a.timestampNs, tolerance, bound);
    PruneKeepsPrunedFrom(s.buffer.slots, full, tolerance, bound, a.timestampNs, next);
    PrimaryPrunes(s, tolerance, a);
  }

  lemma NextBound(times: seq<u64>, next: u64, tolerance: u64)
    requires NeverStepsBack(times + [next], tolerance)
    ensures PruneBound(times, tolerance) <= next
    ensures PruneBound(times, tolerance) <= PruneBound(times + [next], tolerance)
    ensures next > tolerance ==> next <= PruneBound(times + [next], tolerance)
  {
    var all := times + [next];
    assert all[..|times|] == times && all[|times|] == next;
    forall i | 0 <= i < |times| ensures times[i] <= next || times[i] <= tolerance {
      assert all[i] == times[i];
    }
    PruneBoundBelow(times, tolerance, next);
  }

  lemma PruneKeepsPrunedFrom<T>(slots: seq<Option<Timestamped<T>>>, full: seq<Option<Timestamped<T>>>,
                                tolerance: nat, bound: nat, next: nat, newBound: nat)
    requires PrunedFrom(slots, full, tolerance, bound)
    requires bound <= newBound && (next > tolerance ==> next <= newBound)
    ensures PrunedFrom(slots, full, tolerance, newBound)
    ensures PrunedFrom(PruneSlots(slots, SaturatingSub(next, tolerance)), full, tolerance, newBound)
  {
  }

  /** The synchroniser does what one that never prunes and searches the last readings does. */
  predicate PruningIsHidden<A(==), B(==)>(capacity: nat, tolerance: u64, inputs: seq<SyncInput<A, B>>)
    requires capacity > 0
  {
    var (s, outputs) := Run(capacity, tolerance, inputs);
    (s.unmatched, outputs) == SpecRun(capacity, tolerance, inputs)
  }

  /**
   * Pruning is only an optimisation: for every input sequence with nondecreasing primary
   * timestamps, the synchroniser emits the pairs and counts the unmatched primaries of one
   * that never prunes and searches the last `capacity` readings.
   */
  lemma PruningIsInvisible<A, B>(capacity: nat, tolerance: u64, inputs: seq<SyncInput<A, B>>)
    requires capacity > 0 && Nondecreasing(PrimaryTimes(inputs))
    ensures PruningIsHidden(capacity, tolerance, inputs)
  {
    RunAgrees(capacity, tolerance, inputs);
  }

  // ---------- The buffer as a queue ----------

  datatype BufferOp<+T> = OpPush(v: Timestamped<T>) | OpPrune(cutoff: nat)

  function RunOps<T>(capacity: nat, ops: seq<BufferOp<T>>): (b: Buffer<T>)
    requires capacity > 0
    ensures |b.slots| == capacity && b.writeIdx < capacity
  {
    if ops == [] then EmptyBuffer(capacity)
    else
      var b := RunOps(capacity, ops[..|ops| - 1]);
      match ops[|ops| - 1]
      case OpPush(v) => Push(b, v)
      case OpPrune(cutoff) => PruneBefore(b, cutoff)
  }

  /** Drops the leading readings that are older than the cutoff. */
  function DropOlder<T>(live: seq<Timestamped<T>>, cutoff: nat): seq<Timestamped<T>> {
    if live != [] && live[0].timestampNs < cutoff then DropOlder(live[1..], cutoff) else live
  }

  /** The specification: a queue that forgets its oldest reading when it is full. */
  function QueueOf<T>(capacity: nat, ops: seq<BufferOp<T>>): seq<Timestamped<T>> {
    if ops == [] then []
    else
      var live := QueueOf(capacity, ops[..|ops| - 1]);
      match ops[|ops| - 1]
      case OpPush(v) => if |live| < capacity || live == [] then live + [v] else live[1..] + [v]
      case OpPrune(cutoff) => DropOlder(live, cutoff)
  }

  function PushCount<T>(ops: seq<BufferOp<T>>): nat {
    if ops == [] then 0
    else PushCount(ops[..|ops| - 1]) + if ops[|ops| - 1].OpPush? then 1 else 0
  }

  function LastPushed<T>(ops: seq<BufferOp<T>>): nat {
    if ops == [] then 0
    else match ops[|ops| - 1]
      case OpPush(v) => v.timestampNs
      case OpPrune(_) => LastPushed(ops[..|ops| - 1])
  }

  predicate PushesOrdered<T>(ops: seq<BufferOp<T>>) {
    ops == [] ||
    (var before, op := ops[..|ops| - 1], ops[|ops| - 1];
     PushesOrdered(before) && (op.OpPush? ==> LastPushed(before) <= op.v.timestampNs))
  }

  predicate Sorted<T>(live: seq<Timestamped<T>>, top: nat) {
    && (forall i, j :: 0 <= i <= j < |live| ==> live[i].timestampNs <= live[j].timestampNs)
    && (forall i :: 0 <= i < |live| ==> live[i].timestampNs <= top)
  }

  /** Going once around from position `start`, the slots hold `live` and then nothing. */
  ghost predicate HoldsRun<T>(slots: seq<Option<Timestamped<T>>>, start: nat, live: seq<Timestamped<T>>) {
    |live| <= |slots| && |slots| > 0 &&
    forall k: nat :: start <= k < start + |slots| ==>
      slots[SlotOf(k, |slots|)] == if k < start + |live| then Some(live[k - start]) else None
  }

  /** The live slots are one circular run that ends just before the write index. */
  ghost predicate IsQueue<T>(b: Buffer<T>, written: nat, live: seq<Timestamped<T>>) {
    && |live| <= written
    && |b.slots| > 0
    && b.writeIdx == written % |b.slots|
    && b.count == |live|
    && HoldsRun(b.slots, written - |live|, live)
  }

  function LiveSlots<T>(slots: seq<Option<Timestamped<T>>>): nat {
    if slots == [] then 0
    else LiveSlots(slots[..|slots| - 1]) + if slots[|slots| - 1].Some? then 1 else 0
  }

  lemma {:induction false} ClearSlot<T>(slots: seq<Option<Timestamped<T>>>, j: nat)
    requires j < |slots| && slots[j].Some?
    ensures LiveSlots(slots) == LiveSlots(slots[j := None]) + 1
  {
    var before := slots[..|slots| - 1];
    if j == |slots| - 1 {
      assert slots[j := None][..|slots| - 1] == before;
    } else {
      ClearSlot(before, j);
      assert slots[j := None][..|slots| - 1] == before[j := None];
    }
  }

  lemma {:induction false} NoLiveSlots<T>(slots: seq<Option<Timestamped<T>>>)
    requires forall j :: 0 <= j < |slots| ==> slots[j] == None
    ensures LiveSlots(slots) == 0
  {
    if slots != [] {
      NoLiveSlots(slots[..|slots| - 1]);
    }
  }

  /** Writing the slot at one end of the lap moves the lap on by one. */
  lemma AdvanceRun<T>(slots: seq<Option<Timestamped<T>>>, start: nat, live: seq<Timestamped<T>>)
    requires HoldsRun(slots, start, live) && live != []
    ensures SlotOf(start, |slots|) < |slots|
    ensures HoldsRun(slots[SlotOf(start, |slots|) := None], start + 1, live[1..])
  {
    var n := |slots|;
    forall k: nat | start + 1 <= k < start + 1 + n
      ensures slots[SlotOf(start, n) := None][SlotOf(k, n)]
              == if k < start + |live| then Some(live[1..][k - start - 1]) else None
    {
      if k == start + n {
        ModAddLap(start, n);
      } else if SlotOf(k, n) == SlotOf(start, n) {
        ModInjective(start, k, n);
      }
    }
  }

  lemma {:induction false} RunHasLiveSlots<T>(slots: seq<Option<Timestamped<T>>>, start: nat, live: seq<Timestamped<T>>)
    requires HoldsRun(slots, start, live)
    ensures LiveSlots(slots) == |live|
    decreases |live|
  {
    if live == [] {
      forall j: nat | j < |slots| ensures slots[j] == None {
        var k := PositionOfSlot(start, j, |slots|);
      }
      NoLiveSlots(slots);
    } else {
      assert slots[SlotOf(start, |slots|)] == Some(live[0]);
      ClearSlot(slots, SlotOf(start, |slots|));
      AdvanceRun(slots, start, live);
      RunHasLiveSlots(slots[SlotOf(start, |slots|) := None], start + 1, live[1..]);
    }
  }

  lemma PositionOfSlot(start: nat, j: nat, n: nat) returns (k: nat)
    requires j < n
    ensures start <= k < start + n && SlotOf(k, n) == j
  {
    k := start + (j - start) % n;
    assert k == n * -((j - start) / n) + j;
    ModUnique(k, n, -((j - start) / n), j);
  }

  lemma {:induction false} PruneRemoves<T>(slots: seq<Option<Timestamped<T>>>, cutoff: nat)
    ensures LiveSlots(slots) == LiveSlots(PruneSlots(slots, cutoff)) + RemovedCount(slots, cutoff)
  {
    if slots != [] {
      PruneRemoves(slots[..|slots| - 1], cutoff);
      assert PruneSlots(slots, cutoff)[..|slots| - 1] == PruneSlots(slots[..|slots| - 1], cutoff);
    }
  }

  /** In a sorted queue the older readings come first. */
  lemma {:induction false} DropOlderIsSuffix<T>(live: seq<Timestamped<T>>, cutoff: nat, top: nat) returns (m: nat)
    requires Sorted(live, top)
    ensures m <= |live| && DropOlder(live, cutoff) == live[m..]
    ensures forall i :: 0 <= i < |live| ==> (live[i].timestampNs < cutoff <==> i < m)
  {
    if live != [] && live[0].timestampNs < cutoff {
      m := DropOlderIsSuffix(live[1..], cutoff, top);
      forall i | 0 <= i < |live| ensures live[i].timestampNs < cutoff <==> i < m + 1 {
        if i > 0 {
          assert live[1..][i - 1] == live[i];
        }
      }
      m := m + 1;
    } else {
      m := 0;
    }
  }

  lemma PruneKeepsRun<T>(slots: seq<Option<Timestamped<T>>>, start: nat, live: seq<Timestamped<T>>, cutoff: nat, m: nat)
    requires HoldsRun(slots, start, live) && m <= |live|
    requires forall i :: 0 <= i < |live| ==> (live[i].timestampNs < cutoff <==> i < m)
    ensures HoldsRun(PruneSlots(slots, cutoff), start + m, live[m..])
  {
    var n := |slots|;
    forall k: nat | start + m <= k < start + m + n
      ensures PruneSlots(slots, cutoff)[SlotOf(k, n)]
              == if k < start + |live| then Some(live[m..][k - start - m]) else None
    {
      if k >= start + n {
        ModAddLap(k - n, n);
        assert slots[SlotOf(k - n, n)] == Some(live[k - n - start]);
      }
    }
  }

  lemma PushKeepsRun<T>(slots: seq<Option<Timestamped<T>>>, start: nat, live: seq<Timestamped<T>>, v: Timestamped<T>)
    requires HoldsRun(slots, start, live) && |live| < |slots|
    ensures SlotOf(start + |live|, |slots|) < |slots|
    ensures HoldsRun(slots[SlotOf(start + |live|, |slots|) := Some(v)], start, live + [v])
  {
    var n, w := |slots|, start + |live|;
    forall k: nat | start <= k < start + n && k != w ensures SlotOf(k, n) != SlotOf(w, n) {
      if SlotOf(k, n) == SlotOf(w, n) {
        if k < w { ModInjective(k, w, n); } else { ModInjective(w, k, n); }
      }
    }
  }

  lemma PushKeepsQueue<T>(b: Buffer<T>, written: nat, live: seq<Timestamped<T>>, v: Timestamped<T>)
    requires IsQueue(b, written, live)
    ensures IsQueue(Push(b, v), written + 1, if |live| < |b.slots| then live + [v] else live[1..] + [v])
  {
    var n, start := |b.slots|, written - |live|;
    ModSucc(written, n);
    if |live| < n {
      PushKeepsRun(b.slots, start, live, v);
    } else {
      AdvanceRun(b.slots, start, live);
      ModAddLap(start, n);
      var cleared := b.slots[SlotOf(start, n) := None];
      PushKeepsRun(cleared, start + 1, live[1..], v);
      assert cleared[b.writeIdx := Some(v)] == b.slots[b.writeIdx := Some(v)];
    }
  }

  lemma PruneKeepsQueue<T>(b: Buffer<T>, written: nat, live: seq<Timestamped<T>>, cutoff: nat, m: nat)
    requires IsQueue(b, written, live) && m <= |live|
    requires forall i :: 0 <= i < |live| ==> (live[i].timestampNs < cutoff <==> i < m)
    ensures IsQueue(PruneBefore(b, cutoff), written, live[m..])
  {
    var start := written - |live|;
    PruneKeepsRun(b.slots, start, live, cutoff, m);
    assert PruneBefore(b, cutoff).count == |live[m..]| by {
      RunHasLiveSlots(b.slots, start, live);
      RunHasLiveSlots(PruneSlots(b.slots, cutoff), start + m, live[m..]);
      PruneRemoves(b.slots, cutoff);
    }
  }

  lemma SortedSuffix<T>(live: seq<Timestamped<T>>, m: nat, top: nat)
    requires Sorted(live, top) && m <= |live|
    ensures Sorted(live[m..], top)
  {
  }

  lemma SortedSnoc<T>(live: seq<Timestamped<T>>, top: nat, v: Timestamped<T>)
    requires Sorted(live, top) && top <= v.timestampNs
    ensures Sorted(live + [v], v.timestampNs)
  {
  }

  /**
   * Through any mix of pushes and prunes with nondecreasing timestamps, the buffer is a
   * sorted queue: its live slots form one circular run ending before the write index, and
   * `count` is their number.
   */
  lemma {:induction false} BufferIsSortedQueue<T>(capacity: nat, ops: seq<BufferOp<T>>)
    requires capacity > 0 && PushesOrdered(ops)
    ensures IsQueue(RunOps(capacity, ops), PushCount(ops), QueueOf(capacity, ops))
    ensures Sorted(QueueOf(capacity, ops), LastPushed(ops))
  {
    if ops == [] {
      assert HoldsRun<T>(EmptyBuffer<T>(capacity).slots, 0, []);
    } else {
      var before, op := ops[..|ops| - 1], ops[|ops| - 1];
      BufferIsSortedQueue(capacity, before);
      var b, live, top := RunOps(capacity, before), QueueOf(capacity, before), LastPushed(before);
      match op {
        case OpPush(v) =>
          PushKeepsQueue(b, PushCount(before), live, v);
          var kept := if |live| < capacity then live else live[1..];
          SortedSuffix(live, |live| - |kept|, top);
          SortedSnoc(kept, top, v);
          assert QueueOf(capacity, ops) == kept + [v];
        case OpPrune(cutoff) =>
          var m := DropOlderIsSuffix(live, cutoff, top);
          PruneKeepsQueue(b, PushCount(before), live, cutoff, m);
          SortedSuffix(live, m, top);
      }
    }
  }

  /** So `count` is the number of live slots. */
  lemma CountIsLive<T>(capacity: nat, ops: seq<BufferOp<T>>)
    requires capacity > 0 && PushesOrdered(ops)
    ensures RunOps(capacity, ops).count == LiveSlots(RunOps(capacity, ops).slots)
  {
    BufferIsSortedQueue(capacity, ops);
    var live := QueueOf(capacity, ops);
    RunHasLiveSlots(RunOps(capacity, ops).slots, PushCount(ops) - |live|, live);
  }

  // ---------- Where the two conditions are needed ----------

  /**
   * One push keeps an exact `count` exact if and only if it does not overwrite a live slot of
   * a buffer that `count` says has room.
   */
  lemma PushKeepsCountIff<T>(b: Buffer<T>, v: Timestamped<T>)
    requires b.writeIdx < |b.slots| && b.count == LiveSlots(b.slots)
    ensures Push(b, v).count == LiveSlots(Push(b, v).slots)
            <==> b.slots[b.writeIdx] == None || b.count == |b.slots|
  {
    var cleared := b.slots[b.writeIdx := None];
    if b.slots[b.writeIdx].Some? {
      ClearSlot(b.slots, b.writeIdx);
    } else {
      assert cleared == b.slots;
    }
    ClearSlot(Push(b, v).slots, b.writeIdx);
    assert Push(b, v).slots[b.writeIdx := None] == cleared;
    LiveSlotsBound(b.slots);
    if b.slots[b.writeIdx] == None {
      LiveSlotsBound(Push(b, v).slots);
    }
  }

  lemma {:induction false} LiveSlotsBound<T>(slots: seq<Option<Timestamped<T>>>)
    ensures LiveSlots(slots) <= |slots|
  {
    if slots != [] {
      LiveSlotsBound(slots[..|slots| - 1]);
    }
  }

  /** With secondary timestamps out of order, `count` can exceed the number of live slots. */
  lemma CountDriftsWhenUnordered(r10: Timestamped<int>, r5: Timestamped<int>, r20: Timestamped<int>)
    requires r10.timestampNs == 10 && r5.timestampNs == 5 && r20.timestampNs == 20
    ensures var b := Push(PruneBefore(Push(Push(EmptyBuffer(2), r10), r5), 7), r20);
            b.count == 2 && LiveSlots(b.slots) == 1
  {
    var full := Push(Push(EmptyBuffer(2), r10), r5);
    assert full.slots == [Some(r10), Some(r5)];
    assert full.slots[..1] == [Some(r10)] && full.slots[..1][..0] == full.slots[..0];
    assert RemovedCount(full.slots[..1], 7) == 0;
    var pruned := PruneBefore(full, 7);
    assert pruned.slots == [Some(r10), None] && pruned.count == 1;
    var slots := Push(pruned, r20).slots;
    assert slots == [Some(r20), None];
    assert slots[..1] == [Some(r20)] && slots[..1][..0] == slots[..0];
    assert LiveSlots(slots[..1]) == 1;
  }
}
