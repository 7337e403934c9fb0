/** Exactly which primary timestamps let pruning show. */
module FusionExact {
  import opened Bits
  import opened Wrappers
  import opened Fusion

  // ---------- Two primaries in the wrong order ----------

  /** If the times step back at all, they do so between neighbours. */
  lemma NeighboursStepBack(times: seq<u64>, tolerance: u64) returns (i: nat)
    requires !NeverStepsBack(times, tolerance)
    ensures i + 1 < |times| && times[i] > times[i + 1] && times[i] > tolerance
  {
    var k: nat, j: nat :| k < j < |times| && times[k] > times[j] && times[k] > tolerance;
    i := k;
    while i + 1 < j && times[i] <= times[i + 1]
      invariant k <= i < j && times[i] > times[j] && times[i] > tolerance
    {
      i := i + 1;
    }
  }

  /** A reading too old for the primary `q` and within reach of the earlier `p`. */
  function OldReading(p: u64, q: u64, tolerance: u64): u64
    requires p < q && tolerance < q
  {
    if p + tolerance < q then p else q - tolerance - 1
  }

  function Stamp<T>(time: u64, data: T): Timestamped<T> {
    Timestamped(time, 0, data)
  }

  /** Primaries at the given times and nothing else. */
  function Primaries<A, B>(times: seq<u64>, a: A): seq<SyncInput<A, B>> {
    if times == [] then [] else Primaries(times[..|times| - 1], a) + [Primary(Stamp(times[|times| - 1], a))]
  }

  lemma {:induction false} PrimariesAre<A, B>(times: seq<u64>, a: A)
    ensures var inputs := Primaries<A, B>(times, a);
            |inputs| == |times| && PrimaryTimes(inputs) == times && Readings(inputs) == []
  {
    if times != [] {
      PrimariesAre<A, B>(times[..|times| - 1], a);
      var inputs := Primaries<A, B>(times, a);
      assert inputs[..|inputs| - 1] == Primaries<A, B>(times[..|times| - 1], a);
    }
  }

  lemma ClosestOfEmpty<T>(capacity: nat, target: u64, tolerance: u64)
    ensures Closest(EmptyBuffer<T>(capacity).slots, target, tolerance) == None
  {
    var j := ClosestIsNearest(EmptyBuffer<T>(capacity).slots, target, tolerance);
  }

  /** Without readings every primary is unmatched and the buffer stays empty. */
  lemma {:induction false} PrimariesFindNothing<A, B>(capacity: nat, tolerance: u64, times: seq<u64>, a: A)
    requires capacity > 0
    ensures Run(capacity, tolerance, Primaries<A, B>(times, a)).0 == Sync(EmptyBuffer(capacity), |times|)
  {
    if times != [] {
      var inputs := Primaries<A, B>(times, a);
      PrimariesFindNothing<A, B>(capacity, tolerance, times[..|times| - 1], a);
      assert inputs[..|inputs| - 1] == Primaries<A, B>(times[..|times| - 1], a);
      ClosestOfEmpty<B>(capacity, times[|times| - 1], tolerance);
    }
  }

  lemma RunSnoc<A, B>(capacity: nat, tolerance: u64, inputs: seq<SyncInput<A, B>>, input: SyncInput<A, B>)
    requires capacity > 0
    ensures var (s, outputs) := Run(capacity, tolerance, inputs);
            var (s', output) := Process(s, tolerance, input);
            Run(capacity, tolerance, inputs + [input]) == (s', outputs + [output])
    ensures SpecRun(capacity, tolerance, inputs + [input]).1 ==
            SpecRun(capacity, tolerance, inputs).1 + [SpecOutput(capacity, tolerance, Readings(inputs), input)]
  {
    assert (inputs + [input])[..|inputs|] == inputs;
  }

  lemma HistorySnoc<A, B>(inputs: seq<SyncInput<A, B>>, input: SyncInput<A, B>)
    ensures Readings(inputs + [input]) == Readings(inputs) + if input.Secondary? then [input.b] else []
    ensures PrimaryTimes(inputs + [input]) == PrimaryTimes(inputs) + if input.Primary? then [input.a.timestampNs] else []
  {
    assert (inputs + [input])[..|inputs|] == inputs;
  }

  /** Further inputs leave the outputs so far alone, so a difference stays visible. */
  lemma {:induction false} DifferenceStays<A, B>(
      capacity: nat, tolerance: u64, inputs: seq<SyncInput<A, B>>, more: seq<SyncInput<A, B>>)
    requires capacity > 0
    requires Run(capacity, tolerance, inputs).1 != SpecRun(capacity, tolerance, inputs).1
    ensures Run(capacity, tolerance, inputs + more).1 != SpecRun(capacity, tolerance, inputs + more).1
  {
    if more == [] {
      assert inputs + more == inputs;
    } else {
      var before, input := more[..|more| - 1], more[|more| - 1];
      DifferenceStays(capacity, tolerance, inputs, before);
      assert inputs + more == inputs + before + [input];
      OutputsPerInput(capacity, tolerance, inputs + before);
      RunSnoc(capacity, tolerance, inputs + before, input);
      var r, s := Run(capacity, tolerance, inputs + more).1, SpecRun(capacity, tolerance, inputs + more).1;
      assert r[..|r| - 1] == Run(capacity, tolerance, inputs + before).1;
      assert s[..|s| - 1] == SpecRun(capacity, tolerance, inputs + before).1;
    }
  }

  // ---------- The readings that show it ----------

  /** The same reading `n` times. */
  function Copies<A, B>(v: Timestamped<B>, n: nat): seq<SyncInput<A, B>> {
    if n == 0 then [] else Copies(v, n - 1) + [Secondary(v)]
  }

  function Repeat<T>(v: T, n: nat): (r: seq<T>)
    ensures |r| == n && forall i :: 0 <= i < n ==> r[i] == v
  {
    if n == 0 then [] else Repeat(v, n - 1) + [v]
  }

  lemma {:induction false} CopiesAdd<A, B>(inputs: seq<SyncInput<A, B>>, v: Timestamped<B>, n: nat)
    ensures Readings(inputs + Copies(v, n)) == Readings(inputs) + Repeat(v, n)
  {
    if n == 0 {
      assert inputs + Copies(v, n) == inputs;
    } else {
      var shorter := inputs + Copies(v, n - 1);
      CopiesAdd(inputs, v, n - 1);
      HistorySnoc(shorter, Secondary(v));
      assert inputs + Copies(v, n) == shorter + [Secondary(v)];
      assert Readings(inputs) + (Repeat(v, n - 1) + [v]) == Readings(inputs) + Repeat(v, n - 1) + [v];
    }
  }

  lemma {:induction false} CopiesAreNoPrimaries<A, B>(inputs: seq<SyncInput<A, B>>, v: Timestamped<B>, n: nat)
    ensures PrimaryTimes(inputs + Copies(v, n)) == PrimaryTimes(inputs)
  {
    if n == 0 {
      assert inputs + Copies(v, n) == inputs;
    } else {
      CopiesAreNoPrimaries(inputs, v, n - 1);
      HistorySnoc(inputs + Copies(v, n - 1), Secondary(v));
      assert inputs + Copies(v, n) == inputs + Copies(v, n - 1) + [Secondary(v)];
    }
  }

  /** Nothing has been pruned yet. */
  ghost predicate Unpruned<A, B>(capacity: nat, tolerance: u64, inputs: seq<SyncInput<A, B>>)
    requires capacity > 0
  {
    var b, readings := Run(capacity, tolerance, inputs).0.buffer, Readings(inputs);
    b.slots == LastReadings(readings, capacity) && b.writeIdx == |readings| % capacity
  }

  lemma ReadingIsStored<A, B>(capacity: nat, tolerance: u64, inputs: seq<SyncInput<A, B>>, v: Timestamped<B>)
    requires capacity > 0 && Unpruned(capacity, tolerance, inputs)
    ensures Unpruned(capacity, tolerance, inputs + [Secondary(v)])
  {
    RunSnoc(capacity, tolerance, inputs, Secondary(v));
    HistorySnoc(inputs, Secondary(v));
    LastReadingsSnoc(Readings(inputs), capacity, v);
  }

  lemma {:induction false} CopiesAreStored<A, B>(capacity: nat, tolerance: u64, inputs: seq<SyncInput<A, B>>,
                                                 v: Timestamped<B>, n: nat)
    requires capacity > 0 && Unpruned(capacity, tolerance, inputs)
    ensures Unpruned(capacity, tolerance, inputs + Copies(v, n))
  {
    if n == 0 {
      assert inputs + Copies(v, n) == inputs;
    } else {
      CopiesAreStored(capacity, tolerance, inputs, v, n - 1);
      ReadingIsStored(capacity, tolerance, inputs + Copies(v, n - 1), v);
      assert inputs + Copies(v, n) == inputs + Copies(v, n - 1) + [Secondary(v)];
    }
  }

  /** A reading that is not in the buffer does not come back by storing another one. */
  ghost predicate Missing<A, B>(capacity: nat, tolerance: u64, inputs: seq<SyncInput<A, B>>, r: Timestamped<B>)
    requires capacity > 0
  {
    forall j :: 0 <= j < capacity ==> Run(capacity, tolerance, inputs).0.buffer.slots[j] != Some(r)
  }

  lemma OtherReadingIsStored<A, B>(capacity: nat, tolerance: u64, inputs: seq<SyncInput<A, B>>,
                                   r: Timestamped<B>, v: Timestamped<B>)
    requires capacity > 0 && Missing(capacity, tolerance, inputs, r) && v != r
    ensures Missing(capacity, tolerance, inputs + [Secondary(v)], r)
  {
    RunSnoc(capacity, tolerance, inputs, Secondary(v));
    var b := Run(capacity, tolerance, inputs).0.buffer;
    assert Run(capacity, tolerance, inputs + [Secondary(v)]).0.buffer.slots == b.slots[b.writeIdx := Some(v)];
  }

  lemma {:induction false} StaysMissing<A, B>(capacity: nat, tolerance: u64, inputs: seq<SyncInput<A, B>>,
                                              r: Timestamped<B>, v: Timestamped<B>, n: nat)
    requires capacity > 0 && Missing(capacity, tolerance, inputs, r) && v != r
    ensures Missing(capacity, tolerance, inputs + Copies(v, n), r)
  {
    if n == 0 {
      assert inputs + Copies(v, n) == inputs;
    } else {
      StaysMissing(capacity, tolerance, inputs, r, v, n - 1);
      OtherReadingIsStored(capacity, tolerance, inputs + Copies(v, n - 1), r, v);
      assert inputs + Copies(v, n) == inputs + Copies(v, n - 1) + [Secondary(v)];
    }
  }

  /**
   * The buffer is full of readings as new as `q` but for the last one, which is old. Then `q`
   * finds a match, and the old reading is pruned.
   */
  lemma OldReadingIsPruned<A, B>(capacity: nat, tolerance: u64, inputs: seq<SyncInput<A, B>>,
                                 recent: Timestamped<B>, stale: Timestamped<B>, primary: Timestamped<A>)
    requires capacity >= 2 && Unpruned(capacity, tolerance, inputs)
    requires Readings(inputs) == Repeat(recent, capacity) + [stale]
    requires recent.timestampNs == primary.timestampNs && stale.timestampNs + tolerance < primary.timestampNs
    ensures Missing(capacity, tolerance, inputs + [Primary(primary)], stale)
  {
    var slots := Run(capacity, tolerance, inputs).0.buffer.slots;
    RunSnoc(capacity, tolerance, inputs, Primary(primary));
    ModUnique(1, capacity, 0, 1);
    SlotOfReading(Readings(inputs), capacity, 1);
    assert Candidate(slots[1], primary.timestampNs, tolerance);
    var j := ClosestIsNearest(slots, primary.timestampNs, tolerance);
    var after := Run(capacity, tolerance, inputs + [Primary(primary)]).0.buffer.slots;
    assert after == PruneSlots(slots, SaturatingSub(primary.timestampNs, tolerance));
  }

  /** Without pruning the old reading, in the first slot, is preferred to its later twins. */
  lemma OldReadingIsPreferred<T>(capacity: nat, readings: seq<Timestamped<T>>, recent: Timestamped<T>,
                                 stale: Timestamped<T>, twin: Timestamped<T>, target: u64, tolerance: u64)
    requires capacity >= 2 && readings == Repeat(recent, capacity) + [stale] + Repeat(twin, capacity - 1)
    requires twin.timestampNs == stale.timestampNs && Candidate(Some(stale), target, tolerance)
    ensures Closest(LastReadings(readings, capacity), target, tolerance) == Some(stale)
  {
    var k := NearestOfLastReadings(readings, capacity, target, tolerance);
    assert readings[capacity] == stale && Eligible(readings, capacity, target, tolerance, capacity);
    ModUnique(capacity, capacity, 1, 0);
    assert forall l :: capacity <= l < 2 * capacity ==> readings[l].timestampNs == stale.timestampNs;
    assert !Preferred(readings, capacity, target, k, capacity);
  }

  /** Where the two searches find different readings, the outputs differ. */
  lemma OutputsDiffer<A, B>(capacity: nat, tolerance: u64, inputs: seq<SyncInput<A, B>>, r: Timestamped<B>,
                            primary: Timestamped<A>)
    requires capacity > 0 && Missing(capacity, tolerance, inputs, r)
    requires Closest(LastReadings(Readings(inputs), capacity), primary.timestampNs, tolerance) == Some(r)
    ensures var longer := inputs + [Primary(primary)];
            Run(capacity, tolerance, longer).1 != SpecRun(capacity, tolerance, longer).1
  {
    var longer := inputs + [Primary(primary)];
    var j := ClosestIsNearest(Run(capacity, tolerance, inputs).0.buffer.slots, primary.timestampNs, tolerance);
    RunSnoc(capacity, tolerance, inputs, Primary(primary));
    OutputsPerInput(capacity, tolerance, inputs);
    assert SpecRun(capacity, tolerance, longer).1[|inputs|] == Some(MakePair(primary, r));
    assert Run(capacity, tolerance, longer).1[|inputs|] != Some(MakePair(primary, r));
  }

  lemma StoreReadings<A, B>(capacity: nat, tolerance: u64, times: seq<u64>,
                            recent: Timestamped<B>, stale: Timestamped<B>, a: A)
    returns (inputs: seq<SyncInput<A, B>>)
    requires capacity > 0
    ensures Unpruned(capacity, tolerance, inputs)
    ensures Readings(inputs) == Repeat(recent, capacity) + [stale] && PrimaryTimes(inputs) == times
  {
    var start := Primaries<A, B>(times, a);
    PrimariesAre<A, B>(times, a);
    PrimariesFindNothing<A, B>(capacity, tolerance, times, a);
    assert LastReadings<B>([], capacity) == EmptyBuffer<B>(capacity).slots;
    CopiesAdd(start, recent, capacity);
    CopiesAreNoPrimaries(start, recent, capacity);
    CopiesAreStored(capacity, tolerance, start, recent, capacity);
    var filled := start + Copies(recent, capacity);
    assert Readings(filled) == Repeat(recent, capacity);
    HistorySnoc(filled, Secondary(stale));
    ReadingIsStored(capacity, tolerance, filled, stale);
    inputs := filled + [Secondary(stale)];
  }

  lemma PruneAndRefill<A, B>(capacity: nat, tolerance: u64, full: seq<SyncInput<A, B>>, recent: Timestamped<B>,
                             stale: Timestamped<B>, twin: Timestamped<B>, primary: Timestamped<A>)
    returns (inputs: seq<SyncInput<A, B>>)
    requires capacity >= 2 && Unpruned(capacity, tolerance, full) && twin != stale
    requires Readings(full) == Repeat(recent, capacity) + [stale]
    requires recent.timestampNs == primary.timestampNs && stale.timestampNs + tolerance < primary.timestampNs
    ensures Missing(capacity, tolerance, inputs, stale)
    ensures Readings(inputs) == Repeat(recent, capacity) + [stale] + Repeat(twin, capacity - 1)
    ensures PrimaryTimes(inputs) == PrimaryTimes(full) + [primary.timestampNs]
  {
    var pruned := full + [Primary(primary)];
    HistorySnoc(full, Primary(primary));
    OldReadingIsPruned(capacity, tolerance, full, recent, stale, primary);
    CopiesAdd(pruned, twin, capacity - 1);
    CopiesAreNoPrimaries(pruned, twin, capacity - 1);
    StaysMissing(capacity, tolerance, pruned, stale, twin, capacity - 1);
    inputs := pruned + Copies(twin, capacity - 1);
  }

  /**
   * After primaries at any times and without readings: `capacity` readings that `q` matches and
   * an old one that only `p` can use, then `q`, then readings like the old one, then `p`.
   */
  lemma StepBackShows<A, B>(capacity: nat, tolerance: u64, times: seq<u64>, p: u64, q: u64, a: A, b: B)
    returns (inputs: seq<SyncInput<A, B>>)
    requires capacity >= 2 && p < q && tolerance < q
    ensures Run(capacity, tolerance, inputs).1 != SpecRun(capacity, tolerance, inputs).1
    ensures PrimaryTimes(inputs) == times + [q, p]
  {
    var recent := Stamp(q, b);
    var stale, twin := Timestamped(OldReading(p, q, tolerance), 1, b), Stamp(OldReading(p, q, tolerance), b);
    var full := StoreReadings(capacity, tolerance, times, recent, stale, a);
    var refilled := PruneAndRefill(capacity, tolerance, full, recent, stale, twin, Stamp(q, a));
    OldReadingIsPreferred(capacity, Readings(refilled), recent, stale, twin, p, tolerance);
    inputs := refilled + [Primary(Stamp(p, a))];
    HistorySnoc(refilled, Primary(Stamp(p, a)));
    OutputsDiffer(capacity, tolerance, refilled, stale, Stamp(p, a));
  }

  lemma {:induction false} PrimaryTimesConcat<A, B>(x: seq<SyncInput<A, B>>, y: seq<SyncInput<A, B>>)
    ensures PrimaryTimes(x + y) == PrimaryTimes(x) + PrimaryTimes(y)
  {
    if y == [] {
      assert x + y == x;
    } else {
      PrimaryTimesConcat(x, y[..|y| - 1]);
      assert (x + y)[..|x + y| - 1] == x + y[..|y| - 1];
    }
  }

  lemma Continued<A, B>(capacity: nat, tolerance: u64, shown: seq<SyncInput<A, B>>, times: seq<u64>, a: A)
    returns (inputs: seq<SyncInput<A, B>>)
    requires capacity > 0
    requires Run(capacity, tolerance, shown).1 != SpecRun(capacity, tolerance, shown).1
    ensures PrimaryTimes(inputs) == PrimaryTimes(shown) + times && !PruningIsHidden(capacity, tolerance, inputs)
  {
    var rest := Primaries<A, B>(times, a);
    DifferenceStays(capacity, tolerance, shown, rest);
    PrimariesAre<A, B>(times, a);
    PrimaryTimesConcat(shown, rest);
    inputs := shown + rest;
  }

  /** Primary times that step back have readings with which pruning shows. */
  lemma SteppingBackShows<A, B>(capacity: nat, tolerance: u64, times: seq<u64>, a: A, b: B)
    returns (inputs: seq<SyncInput<A, B>>)
    requires capacity >= 2 && !NeverStepsBack(times, tolerance)
    ensures PrimaryTimes(inputs) == times && !PruningIsHidden(capacity, tolerance, inputs)
  {
    var i := NeighboursStepBack(times, tolerance);
    var q, p := times[i], times[i + 1];
    var shown := StepBackShows<A, B>(capacity, tolerance, times[..i], p, q, a, b);
    inputs := Continued(capacity, tolerance, shown, times[i + 2..], a);
    assert times == times[..i] + [q, p] + times[i + 2..];
  }

  /**
   * The exact condition: with room for two readings, pruning never shows with these primary
   * times, whatever the readings, if and only if no primary is followed by an earlier one,
   * except where its cutoff is zero anyway.
   */
  lemma PruningIsInvisibleIff<A(!new), B(!new)>(capacity: nat, tolerance: u64, times: seq<u64>, a: A, b: B)
    requires capacity >= 2
    ensures NeverStepsBack(times, tolerance) <==>
            forall inputs: seq<SyncInput<A, B>> ::
              PrimaryTimes(inputs) == times ==> PruningIsHidden(capacity, tolerance, inputs)
  {
    if NeverStepsBack(times, tolerance) {
      forall inputs: seq<SyncInput<A, B>> | PrimaryTimes(inputs) == times
        ensures PruningIsHidden(capacity, tolerance, inputs)
      {
        RunAgrees(capacity, tolerance, inputs);
      }
    } else {
      var inputs := SteppingBackShows<A, B>(capacity, tolerance, times, a, b);
    }
  }

  // ---------- Room for one reading ----------

  /** With room for one reading a match never prunes it, so pruning never shows at all. */
  lemma {:induction false} OneReadingIsNeverPruned<A, B>(tolerance: u64, inputs: seq<SyncInput<A, B>>)
    ensures PruningIsHidden(1, tolerance, inputs)
    ensures var s := Run(1, tolerance, inputs).0;
            s.buffer.slots == LastReadings(Readings(inputs), 1) && s.buffer.writeIdx == 0
  {
    if inputs != [] {
      var before, input := inputs[..|inputs| - 1], inputs[|inputs| - 1];
      OneReadingIsNeverPruned(tolerance, before);
      var s := Run(1, tolerance, before).0;
      match input {
        case Secondary(v) =>
          PushMatchesReadings(Readings(before), 1, v, 0);
        case Primary(a) =>
          var j := ClosestIsNearest(s.buffer.slots, a.timestampNs, tolerance);
          assert Process(s, tolerance, input).0.buffer.slots == s.buffer.slots;
      }
    }
  }
}
