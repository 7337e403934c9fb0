/** Exactly which push times keep the reading count of the synchroniser's buffer exact. */
module FusionCount {
  import opened Bits
  import opened Wrappers
  import opened Fusion

  function Pushes<T>(ops: seq<BufferOp<T>>): seq<Timestamped<T>> {
    if ops == [] then []
    else
      var before := Pushes(ops[..|ops| - 1]);
      match ops[|ops| - 1]
      case OpPush(v) => before + [v]
      case OpPrune(_) => before
  }

  function Times<T>(readings: seq<Timestamped<T>>): (times: seq<u64>)
    ensures |times| == |readings|
  {
    seq(|readings|, i requires 0 <= i < |readings| => readings[i].timestampNs)
  }

  function PushTimes<T>(ops: seq<BufferOp<T>>): seq<u64> {
    Times(Pushes(ops))
  }

  predicate CountIsExact<T>(b: Buffer<T>) {
    b.count == LiveSlots(b.slots)
  }

  /** No reading is newer than one of those pushed before its slot is written again. */
  predicate NeverOutlives(times: seq<u64>, capacity: nat) {
    forall i, k :: 0 <= i < k < i + capacity < |times| ==> times[i] <= times[k]
  }

  // ---------- The condition is sufficient ----------

  predicate LiveAt<T>(slots: seq<Option<Timestamped<T>>>, k: nat)
    requires |slots| > 0
  {
    slots[SlotOf(k, |slots|)].Some?
  }

  /** A live slot holds the last reading written to it. */
  ghost predicate HoldsReadings<T>(b: Buffer<T>, readings: seq<Timestamped<T>>) {
    && |b.slots| > 0 && b.writeIdx == |readings| % |b.slots|
    && forall j :: 0 <= j < |b.slots| ==> b.slots[j] == None || b.slots[j] == LastReadings(readings, |b.slots|)[j]
  }

  /** A prune that spares a reading spares those that are as new and were pushed later. */
  ghost predicate OutlivedByNewer<T>(slots: seq<Option<Timestamped<T>>>, readings: seq<Timestamped<T>>)
    requires |slots| > 0
  {
    forall i: nat, k: nat {:trigger LiveAt(slots, i), LiveAt(slots, k)} ::
      i < k < |readings| <= i + |slots| && LiveAt(slots, i) && readings[i].timestampNs <= readings[k].timestampNs ==>
        LiveAt(slots, k)
  }

  ghost predicate Agrees<T>(b: Buffer<T>, readings: seq<Timestamped<T>>) {
    HoldsReadings(b, readings) && OutlivedByNewer(b.slots, readings) && CountIsExact(b)
  }

  lemma PruneAgrees<T>(b: Buffer<T>, readings: seq<Timestamped<T>>, cutoff: nat)
    requires Agrees(b, readings)
    ensures Agrees(PruneBefore(b, cutoff), readings)
  {
    var slots, pruned := b.slots, PruneSlots(b.slots, cutoff);
    PruneRemoves(slots, cutoff);
    forall i: nat, k: nat | i < k < |readings| <= i + |slots| && LiveAt(pruned, i)
                            && readings[i].timestampNs <= readings[k].timestampNs
      ensures LiveAt(pruned, k)
    {
      assert LiveAt(slots, i) && LiveAt(slots, k);
      SlotOfReading(readings, |slots|, i);
      SlotOfReading(readings, |slots|, k);
    }
  }

  lemma PushHoldsReadings<T>(b: Buffer<T>, readings: seq<Timestamped<T>>, v: Timestamped<T>)
    requires HoldsReadings(b, readings)
    ensures HoldsReadings(Push(b, v), readings + [v])
  {
    LastReadingsSnoc(readings, |b.slots|, v);
  }

  lemma PushOutlives<T>(b: Buffer<T>, readings: seq<Timestamped<T>>, v: Timestamped<T>)
    requires HoldsReadings(b, readings) && OutlivedByNewer(b.slots, readings)
    ensures OutlivedByNewer(Push(b, v).slots, readings + [v])
  {
    var slots, pushed, more := b.slots, Push(b, v).slots, readings + [v];
    forall i: nat, k: nat | i < k < |more| <= i + |slots| && LiveAt(pushed, i)
                            && more[i].timestampNs <= more[k].timestampNs
      ensures LiveAt(pushed, k)
    {
      if k < |readings| {
        OtherSlot(i, |readings|, |slots|);
        OtherSlot(k, |readings|, |slots|);
        assert LiveAt(slots, i) && LiveAt(slots, k);
      }
    }
  }

  lemma OtherSlot(i: nat, n: nat, capacity: nat)
    requires i < n < i + capacity
    ensures SlotOf(i, capacity) != SlotOf(n, capacity)
  {
    if SlotOf(i, capacity) == SlotOf(n, capacity) {
      ModInjective(i, n, capacity);
    }
  }

  lemma {:induction false} AllLive<T>(slots: seq<Option<Timestamped<T>>>)
    requires forall j :: 0 <= j < |slots| ==> slots[j].Some?
    ensures LiveSlots(slots) == |slots|
  {
    if slots != [] {
      AllLive(slots[..|slots| - 1]);
    }
  }

  /** Where the oldest reading is still live and none after it is older, the buffer is full. */
  lemma FullIfOldestIsLive<T>(b: Buffer<T>, readings: seq<Timestamped<T>>)
    requires Agrees(b, readings) && b.writeIdx < |b.slots| && b.slots[b.writeIdx].Some?
    requires |readings| >= |b.slots| ==>
               forall k :: |readings| - |b.slots| < k < |readings| ==>
                 readings[|readings| - |b.slots|].timestampNs <= readings[k].timestampNs
    ensures b.count == |b.slots|
  {
    var capacity := |b.slots|;
    var oldest := ReadingOfSlot(readings, capacity, b.writeIdx);
    OldestReading(oldest, |readings|, capacity);
    forall j | 0 <= j < capacity ensures b.slots[j].Some? {
      var k := PositionOfSlot(oldest, j, capacity);
      assert LiveAt(b.slots, oldest);
      if k != oldest {
        assert LiveAt(b.slots, k);
      }
    }
    AllLive(b.slots);
  }

  lemma OldestReading(oldest: nat, n: nat, capacity: nat)
    requires oldest < n <= oldest + capacity && oldest % capacity == n % capacity
    ensures n == oldest + capacity
  {
    if n < oldest + capacity {
      ModInjective(oldest, n, capacity);
    }
  }

  lemma PushAgrees<T>(b: Buffer<T>, readings: seq<Timestamped<T>>, v: Timestamped<T>)
    requires Agrees(b, readings) && NeverOutlives(Times(readings + [v]), |b.slots|)
    ensures Agrees(Push(b, v), readings + [v])
  {
    PushHoldsReadings(b, readings, v);
    PushOutlives(b, readings, v);
    if b.slots[b.writeIdx].Some? {
      var times, oldest := Times(readings + [v]), |readings| - |b.slots|;
      forall k | oldest < k < |readings| && oldest >= 0
        ensures readings[oldest].timestampNs <= readings[k].timestampNs
      {
        assert times[oldest] <= times[k];
      }
      FullIfOldestIsLive(b, readings);
    }
    PushKeepsCountIff(b, v);
  }

  lemma PrefixNeverOutlives(times: seq<u64>, longer: seq<u64>, capacity: nat)
    requires times <= longer && NeverOutlives(longer, capacity)
    ensures NeverOutlives(times, capacity)
  {
    assert forall i :: 0 <= i < |times| ==> longer[i] == times[i];
  }

  lemma {:induction false} RunOpsAgrees<T>(capacity: nat, ops: seq<BufferOp<T>>)
    requires capacity > 0 && NeverOutlives(PushTimes(ops), capacity)
    ensures Agrees(RunOps(capacity, ops), Pushes(ops))
  {
    if ops == [] {
      NoLiveSlots(EmptyBuffer<T>(capacity).slots);
    } else {
      var before, op := ops[..|ops| - 1], ops[|ops| - 1];
      PrefixNeverOutlives(PushTimes(before), PushTimes(ops), capacity);
      RunOpsAgrees(capacity, before);
      match op {
        case OpPush(v) => PushAgrees(RunOps(capacity, before), Pushes(before), v);
        case OpPrune(cutoff) => PruneAgrees(RunOps(capacity, before), Pushes(before), cutoff);
      }
    }
  }

  // ---------- The condition is necessary ----------

  function PushAll<T>(times: seq<u64>, d: T): seq<BufferOp<T>> {
    if times == [] then []
    else PushAll(times[..|times| - 1], d) + [OpPush(Timestamped(times[|times| - 1], 0, d))]
  }

  lemma OpsSnoc<T>(capacity: nat, ops: seq<BufferOp<T>>, op: BufferOp<T>)
    requires capacity > 0
    ensures op.OpPush? ==> RunOps(capacity, ops + [op]) == Push(RunOps(capacity, ops), op.v)
    ensures op.OpPrune? ==> RunOps(capacity, ops + [op]) == PruneBefore(RunOps(capacity, ops), op.cutoff)
    ensures Pushes(ops + [op]) == Pushes(ops) + if op.OpPush? then [op.v] else []
  {
    assert (ops + [op])[..|ops|] == ops;
  }

  ghost predicate IsFilled<T>(b: Buffer<T>, capacity: nat, readings: seq<Timestamped<T>>)
    requires capacity > 0
  {
    && b.slots == LastReadings(readings, capacity) && b.writeIdx == |readings| % capacity
    && b.count == if |readings| < capacity then |readings| else capacity
  }

  lemma PushFills<T>(b: Buffer<T>, capacity: nat, readings: seq<Timestamped<T>>, v: Timestamped<T>)
    requires capacity > 0 && IsFilled(b, capacity, readings)
    ensures b.writeIdx < |b.slots| && IsFilled(Push(b, v), capacity, readings + [v])
  {
    LastReadingsSnoc(readings, capacity, v);
  }

  /** With pushes alone the slots hold the last readings, and the count is exact. */
  lemma {:induction false} PushAllFills<T>(capacity: nat, times: seq<u64>, d: T)
    requires capacity > 0
    ensures var b, readings := RunOps(capacity, PushAll(times, d)), Pushes(PushAll(times, d));
            Times(readings) == times && IsFilled(b, capacity, readings)
  {
    if times != [] {
      var before, v := times[..|times| - 1], Timestamped(times[|times| - 1], 0, d);
      PushAllFills(capacity, before, d);
      OpsSnoc(capacity, PushAll(before, d), OpPush(v));
      PushFills(RunOps(capacity, PushAll(before, d)), capacity, Pushes(PushAll(before, d)), v);
    }
  }

  /** A full buffer loses a later reading and keeps the oldest, which the next push overwrites. */
  lemma PruneThenPushDrifts<T>(b: Buffer<T>, readings: seq<Timestamped<T>>, k: nat, v: Timestamped<T>)
    requires |readings| >= |b.slots| > 0 && b.writeIdx == |readings| % |b.slots| && b.count == |b.slots|
    requires b.slots == LastReadings(readings, |b.slots|)
    requires |readings| - |b.slots| < k < |readings|
    requires readings[k].timestampNs < readings[|readings| - |b.slots|].timestampNs
    ensures var pruned := PruneBefore(b, readings[|readings| - |b.slots|].timestampNs); !CountIsExact(Push(pruned, v))
  {
    var capacity, oldest := |b.slots|, |readings| - |b.slots|;
    var pruned := PruneBefore(b, readings[oldest].timestampNs);
    SlotOfReading(readings, capacity, k);
    SlotOfReading(readings, capacity, oldest);
    ModAddLap(oldest, capacity);
    AllReadingsLive(readings, capacity);
    PruneRemoves(b.slots, readings[oldest].timestampNs);
    assert pruned.slots[k % capacity] == None && pruned.slots[b.writeIdx] == Some(readings[oldest]);
    SomeSlotFree(pruned.slots, k % capacity);
    PushKeepsCountIff(pruned, v);
  }

  lemma AllReadingsLive<T>(readings: seq<Timestamped<T>>, capacity: nat)
    requires |readings| >= capacity
    ensures LiveSlots(LastReadings(readings, capacity)) == capacity
  {
    AllLive(LastReadings(readings, capacity));
  }

  lemma {:induction false} SomeSlotFree<T>(slots: seq<Option<Timestamped<T>>>, j: nat)
    requires j < |slots| && slots[j] == None
    ensures LiveSlots(slots) < |slots|
  {
    var before := slots[..|slots| - 1];
    if j == |slots| - 1 {
      LiveSlotsBound(before);
    } else {
      SomeSlotFree(before, j);
    }
  }

  lemma OutlivingDrifts<T>(capacity: nat, times: seq<u64>, i: nat, k: nat, d: T) returns (ops: seq<BufferOp<T>>)
    requires i < k < i + capacity < |times| && times[i] > times[k]
    ensures PushTimes(ops) <= times && !CountIsExact(RunOps(capacity, ops))
  {
    var early, v := times[..i + capacity], Timestamped(times[i + capacity], 0, d);
    var pushes := PushAll(early, d);
    PushAllFills(capacity, early, d);
    var readings := Pushes(pushes);
    assert readings[i].timestampNs == early[i] && readings[k].timestampNs == early[k];
    OpsSnoc(capacity, pushes, OpPrune(times[i]));
    OpsSnoc(capacity, pushes + [OpPrune(times[i])], OpPush(v));
    PruneThenPushDrifts(RunOps(capacity, pushes), readings, k, v);
    ops := pushes + [OpPrune(times[i])] + [OpPush(v)];
    assert Times(readings + [v]) == times[..i + capacity + 1];
  }

  /**
   * The exact condition over whole runs: while readings with these times are pushed, `count` is
   * the number of live slots at every moment and whatever is pruned in between, if and only if
   * no reading is newer than one of those pushed before its slot is written again.
   */
  lemma CountIsExactIff<T(!new)>(capacity: nat, times: seq<u64>, d: T)
    requires capacity > 0
    ensures NeverOutlives(times, capacity) <==>
            forall ops: seq<BufferOp<T>> :: PushTimes(ops) <= times ==> CountIsExact(RunOps(capacity, ops))
  {
    if NeverOutlives(times, capacity) {
      forall ops: seq<BufferOp<T>> | PushTimes(ops) <= times ensures CountIsExact(RunOps(capacity, ops)) {
        PrefixNeverOutlives(PushTimes(ops), times, capacity);
        RunOpsAgrees(capacity, ops);
      }
    } else {
      var i: nat, k: nat :| i < k < i + capacity < |times| && times[i] > times[k];
      var ops := OutlivingDrifts(capacity, times, i, k, d);
    }
  }
}
