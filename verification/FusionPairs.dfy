/** What the pairs of a whole run are, in terms of timestamps. */
module FusionPairs {
  import opened Wrappers
  import opened Fusion

  /** The output for an input is decided by the inputs before it. */
  lemma {:induction false} OutputAt<A, B>(capacity: nat, tolerance: u64, inputs: seq<SyncInput<A, B>>, i: nat)
    requires capacity > 0 && i < |inputs|
    ensures |Run(capacity, tolerance, inputs).1| == |inputs|
    ensures Run(capacity, tolerance, inputs).1[i]
            == Process(Run(capacity, tolerance, inputs[..i]).0, tolerance, inputs[i]).1
  {
    var before := inputs[..|inputs| - 1];
    if i == |inputs| - 1 {
      OutputsPerInput(capacity, tolerance, before);
    } else {
      OutputAt(capacity, tolerance, before, i);
      assert before[..i] == inputs[..i];
    }
  }

  /** Whatever was pruned, a live slot holds the last reading stored in it. */
  ghost predicate StoresReadings<T>(b: Buffer<T>, capacity: nat, readings: seq<Timestamped<T>>)
    requires capacity > 0
  {
    && |b.slots| == capacity && b.writeIdx == |readings| % capacity
    && forall j :: 0 <= j < capacity ==> b.slots[j] == None || b.slots[j] == LastReadings(readings, capacity)[j]
  }

  lemma {:induction false} RunStoresReadings<A, B>(capacity: nat, tolerance: u64, inputs: seq<SyncInput<A, B>>)
    requires capacity > 0
    ensures StoresReadings(Run(capacity, tolerance, inputs).0.buffer, capacity, Readings(inputs))
  {
    if inputs != [] {
      var before, input := inputs[..|inputs| - 1], inputs[|inputs| - 1];
      RunStoresReadings(capacity, tolerance, before);
      match input {
        case Secondary(b) => LastReadingsSnoc(Readings(before), capacity, b);
        case Primary(_) =>
      }
    }
  }

  /**
   * In every run, whatever the order of the timestamps: a primary is paired with itself, a reading
   * within the tolerance that is one of the last `capacity` before it, and the time between them.
   */
  lemma PairsAreInReach<A, B>(capacity: nat, tolerance: u64, inputs: seq<SyncInput<A, B>>, i: nat) returns (k: nat)
    requires capacity > 0 && i < |inputs|
    ensures |Run(capacity, tolerance, inputs).1| == |inputs|
    ensures var r, readings := Run(capacity, tolerance, inputs).1[i], Readings(inputs[..i]);
            r.Some? ==>
              && inputs[i].Primary? && k < |readings| <= k + capacity
              && IsPairOf(r.value, inputs[i].a, readings[k])
              && InReach(readings[k].timestampNs, inputs[i].a.timestampNs, tolerance)
  {
    OutputAt(capacity, tolerance, inputs, i);
    k := 0;
    if Run(capacity, tolerance, inputs).1[i].Some? {
      var s, readings := Run(capacity, tolerance, inputs[..i]).0, Readings(inputs[..i]);
      var a := inputs[i].a;
      RunStoresReadings(capacity, tolerance, inputs[..i]);
      PrimaryIsMatched(s, tolerance, a);
      var j := ClosestIsNearest(s.buffer.slots, a.timestampNs, tolerance);
      k := ReadingOfSlot(readings, capacity, j);
      SlotOfReading(readings, capacity, k);
    }
  }

  lemma SpecOutputs<A, B>(capacity: nat, tolerance: u64, inputs: seq<SyncInput<A, B>>)
    requires inputs != []
    ensures var outputs := SpecRun(capacity, tolerance, inputs).1;
            outputs != [] && outputs[|outputs| - 1] ==
              SpecOutput(capacity, tolerance, Readings(inputs[..|inputs| - 1]), inputs[|inputs| - 1])
  {
  }

  /** As long as no primary steps back, the output is that of a search through all last readings. */
  lemma OutputIsSpecified<A, B>(capacity: nat, tolerance: u64, inputs: seq<SyncInput<A, B>>, i: nat)
    requires capacity > 0 && i < |inputs| && NeverStepsBack(PrimaryTimes(inputs[..i + 1]), tolerance)
    ensures |Run(capacity, tolerance, inputs).1| == |inputs|
    ensures Run(capacity, tolerance, inputs).1[i] == SpecOutput(capacity, tolerance, Readings(inputs[..i]), inputs[i])
  {
    var upTo := inputs[..i + 1];
    assert upTo[..i] == inputs[..i];
    RunAgrees(capacity, tolerance, upTo);
    SpecOutputs(capacity, tolerance, upTo);
    OutputAt(capacity, tolerance, upTo, i);
    OutputAt(capacity, tolerance, inputs, i);
  }

  /**
   * And as long as no primary steps back it is the nearest of them: a primary stays unmatched
   * exactly if none of the last `capacity` readings is within the tolerance, and otherwise none of
   * them is nearer than the one it is paired with.
   */
  lemma PairsAreNearest<A, B>(capacity: nat, tolerance: u64, inputs: seq<SyncInput<A, B>>, i: nat) returns (k: nat)
    requires capacity > 0 && i < |inputs| && inputs[i].Primary?
    requires NeverStepsBack(PrimaryTimes(inputs[..i + 1]), tolerance)
    ensures |Run(capacity, tolerance, inputs).1| == |inputs|
    ensures var r, readings := Run(capacity, tolerance, inputs).1[i], Readings(inputs[..i]);
            var a := inputs[i].a;
            if r.None? then
              forall l: nat :: l < |readings| <= l + capacity ==>
                !InReach(readings[l].timestampNs, a.timestampNs, tolerance)
            else
              && k < |readings| <= k + capacity && IsPairOf(r.value, a, readings[k])
              && InReach(readings[k].timestampNs, a.timestampNs, tolerance)
              && forall l: nat :: l < |readings| <= l + capacity ==>
                   !Nearer(readings[l].timestampNs, readings[k].timestampNs, a.timestampNs)
  {
    var readings, a := Readings(inputs[..i]), inputs[i].a;
    OutputIsSpecified(capacity, tolerance, inputs, i);
    k := NearestOfLastReadings(readings, capacity, a.timestampNs, tolerance);
    var r := Run(capacity, tolerance, inputs).1[i];
    if r.None? {
      forall l: nat | l < |readings| <= l + capacity
        ensures !InReach(readings[l].timestampNs, a.timestampNs, tolerance)
      {
        assert !Eligible(readings, capacity, a.timestampNs, tolerance, l);
      }
    } else {
      DistanceIs(a.timestampNs, readings[k].timestampNs, readings[k].timestampNs);
      forall l: nat | l < |readings| <= l + capacity
        ensures !Nearer(readings[l].timestampNs, readings[k].timestampNs, a.timestampNs)
      {
        NearerIsInReach(readings[l].timestampNs, readings[k].timestampNs, a.timestampNs, tolerance);
        if l != k && Eligible(readings, capacity, a.timestampNs, tolerance, l) {
          assert Preferred(readings, capacity, a.timestampNs, k, l);
        }
      }
    }
  }

  lemma NearerIsInReach(t: u64, s: u64, target: u64, tolerance: u64)
    requires InReach(s, target, tolerance)
    ensures Nearer(t, s, target) ==> InReach(t, target, tolerance)
  {
  }

  function PairCount<A, B>(outputs: seq<Option<SyncedPair<A, B>>>): nat {
    if outputs == [] then 0
    else PairCount(outputs[..|outputs| - 1]) + if outputs[|outputs| - 1].Some? then 1 else 0
  }

  /** Every primary is either paired or counted as unmatched. */
  lemma {:induction false} PairedOrCounted<A, B>(capacity: nat, tolerance: u64, inputs: seq<SyncInput<A, B>>)
    requires capacity > 0
    ensures var (s, outputs) := Run(capacity, tolerance, inputs);
            PairCount(outputs) + s.unmatched == |PrimaryTimes(inputs)|
  {
    if inputs != [] {
      var before, input := inputs[..|inputs| - 1], inputs[|inputs| - 1];
      PairedOrCounted(capacity, tolerance, before);
      var (s, outputs) := Run(capacity, tolerance, before);
      var (s', output) := Process(s, tolerance, input);
      assert (outputs + [output])[..|outputs|] == outputs;
      if input.Primary? {
        PrimaryIsMatched(s, tolerance, input.a);
      }
    }
  }
}
