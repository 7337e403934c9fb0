/** The synchroniser as the source writes it: arrays and counters updated in place. */
module TimestampSync {
  import opened Wrappers
  import opened Fusion

  class TimestampBuffer<T> {
    var buffer: array<Option<Timestamped<T>>>
    var writeIdx: nat
    var count: nat

    ghost function View(): Buffer<T>
      reads this, buffer
    {
      Buffer(buffer[..], writeIdx, count)
    }

    /** The source indexes modulo the capacity, so it must not be zero. */
    ghost predicate Valid()
      reads this, buffer
    {
      writeIdx < buffer.Length
    }

    constructor (capacity: nat)
      requires capacity > 0
      ensures Valid() && fresh(buffer) && View() == EmptyBuffer<T>(capacity)
    {
      buffer := new Option<Timestamped<T>>[capacity](_ => None);
      writeIdx, count := 0, 0;
      new;
      assert buffer[..] == EmptyBuffer<T>(capacity).slots;
    }

    method Push(value: Timestamped<T>)
      requires Valid()
      modifies this, buffer
      ensures Valid() && buffer == old(buffer)
      ensures View() == Fusion.Push(old(View()), value)
    {
      buffer[writeIdx] := Some(value);
      writeIdx := (writeIdx + 1) % buffer.Length;
      if count < buffer.Length {
        count := count + 1;
      }
    }

    method FindClosest(targetNs: u64, toleranceNs: u64) returns (best: Option<Timestamped<T>>)
      ensures best == Closest(buffer[..], targetNs, toleranceNs)
      ensures IsNearest(buffer[..], targetNs, toleranceNs, best)
    {
      best := None;
      var bestDiff: u64 := U64_MAX;
      for i := 0 to buffer.Length
        invariant best == Closest(buffer[..i], targetNs, toleranceNs)
        invariant best.Some? ==> bestDiff == AbsDiff(targetNs, best.value.timestampNs) < U64_MAX
        invariant best.None? ==> bestDiff == U64_MAX
      {
        assert buffer[..i + 1][..i] == buffer[..i];
        if buffer[i].Some? {
          var diff := AbsDiff(targetNs, buffer[i].value.timestampNs);
          ReachIs(targetNs, buffer[i].value.timestampNs, toleranceNs);
          if diff <= toleranceNs && diff < bestDiff {
            bestDiff := diff;
            best := buffer[i];
          }
        }
      }
      assert buffer[..buffer.Length] == buffer[..];
      ClosestMeetsSpec(buffer[..], targetNs, toleranceNs);
    }

    method PruneBefore(timestampNs: nat)
      modifies this, buffer
      ensures buffer == old(buffer) && writeIdx == old(writeIdx)
      ensures View() == Fusion.PruneBefore(old(View()), timestampNs)
    {
      ghost var slots, counted := buffer[..], count;
      for i := 0 to buffer.Length
        invariant buffer == old(buffer) && writeIdx == old(writeIdx)
        invariant forall j :: 0 <= j < i ==> buffer[j] == PruneSlots(slots, timestampNs)[j]
        invariant forall j :: i <= j < buffer.Length ==> buffer[j] == slots[j]
        invariant count == SaturatingSub(counted, RemovedCount(slots[..i], timestampNs))
      {
        assert slots[..i + 1][..i] == slots[..i];
        if buffer[i].Some? {
          if buffer[i].value.timestampNs < timestampNs {
            buffer[i] := None;
            if count > 0 {
              count := count - 1;
            }
          }
        }
      }
      assert slots[..buffer.Length] == slots && buffer[..] == PruneSlots(slots, timestampNs);
    }

    method Len() returns (n: nat)
      ensures n == View().count
    {
      n := count;
    }

    method Clear()
      requires Valid()
      modifies this, buffer
      ensures Valid() && buffer == old(buffer)
      ensures View() == EmptyBuffer<T>(buffer.Length)
    {
      for i := 0 to buffer.Length
        invariant buffer == old(buffer)
        invariant forall j :: 0 <= j < i ==> buffer[j] == None
      {
        buffer[i] := None;
      }
      count := 0;
      writeIdx := 0;
      assert buffer[..] == EmptyBuffer<T>(buffer.Length).slots;
    }
  }

  class TimestampSync<A, B> {
    const secondaryBuffer: TimestampBuffer<B>
    const toleranceNs: u64
    var unmatchedCount: nat

    ghost function View(): Sync<B>
      reads this, secondaryBuffer, secondaryBuffer.buffer
    {
      Sync(secondaryBuffer.View(), unmatchedCount)
    }

    ghost predicate Valid()
      reads this, secondaryBuffer, secondaryBuffer.buffer
    {
      secondaryBuffer.Valid()
    }

    constructor (capacity: nat, toleranceNs: u64)
      requires capacity > 0
      ensures Valid() && fresh(secondaryBuffer) && fresh(secondaryBuffer.buffer)
      ensures this.toleranceNs == toleranceNs && View() == Sync(EmptyBuffer<B>(capacity), 0)
    {
      secondaryBuffer := new TimestampBuffer<B>(capacity);
      this.toleranceNs := toleranceNs;
      unmatchedCount := 0;
    }

    method MatchPrimary(primary: Timestamped<A>) returns (r: Option<SyncedPair<A, B>>)
      requires Valid()
      modifies this, secondaryBuffer, secondaryBuffer.buffer
      ensures Valid() && secondaryBuffer.buffer == old(secondaryBuffer.buffer)
      ensures (View(), r) == Fusion.Process(old(View()), toleranceNs, SyncInput<A, B>.Primary(primary))
      ensures IsNearest(old(secondaryBuffer.buffer[..]), primary.timestampNs, toleranceNs, Match(r))
      ensures r.Some? ==> IsPairOf(r.value, primary, r.value.secondary)
      ensures unmatchedCount == old(unmatchedCount) + if r.None? then 1 else 0
    {
      PrimaryIsMatched(View(), toleranceNs, primary);
      var found := secondaryBuffer.FindClosest(primary.timestampNs, toleranceNs);
      if found.Some? {
        var pair := MakePair(primary, found.value);
        var cutoff := SaturatingSub(primary.timestampNs, toleranceNs);
        secondaryBuffer.PruneBefore(cutoff);
        return Some(pair);
      } else {
        unmatchedCount := unmatchedCount + 1;
        return None;
      }
    }

    method Process(input: SyncInput<A, B>) returns (r: Option<SyncedPair<A, B>>)
      requires Valid()
      modifies this, secondaryBuffer, secondaryBuffer.buffer
      ensures Valid() && secondaryBuffer.buffer == old(secondaryBuffer.buffer)
      ensures (View(), r) == Fusion.Process(old(View()), toleranceNs, input)
    {
      match input {
        case Primary(data) => r := MatchPrimary(data);
        case Secondary(data) =>
          secondaryBuffer.Push(data);
          r := None;
      }
    }

    method Reset()
      requires Valid()
      modifies this, secondaryBuffer, secondaryBuffer.buffer
      ensures Valid() && secondaryBuffer.buffer == old(secondaryBuffer.buffer)
      ensures View() == Sync(EmptyBuffer<B>(secondaryBuffer.buffer.Length), 0)
    {
      secondaryBuffer.Clear();
      unmatchedCount := 0;
    }
  }
}
