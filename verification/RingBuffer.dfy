/**
 * The ring buffer itself: the methods of the source, each run without interference.
 *
 * Every method is the protocol program of RingProtocol taken step by step, so the state it
 * leaves is the one that those steps lead to.
 */
module RingBuffer {
  import opened Wrappers
  import opened Bits
  import opened RingProtocol

  /** A whole push on an idle buffer, as protocol steps. */
  ghost function PushAlone<T>(s: State<T>, value: T): State<T>
    requires Inv(s) && s.prod.ProdIdle?
  {
    var begun := Step(s, PushBegin(value)).0;
    var (loaded, event) := Step(begun, PushLoadTail(|s.popped|));
    if event.PushFull? then loaded else Step(Step(loaded, PushWriteEnd).0, PushPublish).0
  }

  /** A whole pop on an idle buffer, as protocol steps. */
  ghost function PopAlone<T>(s: State<T>): State<T>
    requires Inv(s) && s.cons.ConsIdle?
  {
    var begun := Step(s, PopBegin(false)).0;
    var (loaded, event) := Step(begun, PopLoadHead(|s.pushed|));
    if event.PopEmpty? then loaded else
      var (taken, event) := Step(loaded, PopReadEnd);
      if event.ReadUninitialised? then taken else Step(taken, PopPublish).0
  }

  /** An uninterrupted push keeps the invariant and appends unless the queue is full. */
  lemma PushAloneAppends<T>(s: State<T>, value: T)
    requires Inv(s) && s.prod.ProdIdle?
    ensures var s', n := PushAlone(s, value), |s.slots|;
            && Inv(s')
            && (NextIndex(s.head, n) == s.tail <==> |s.Queue()| == n - 1)
            && if |s.Queue()| == n - 1
               then s' == s.(tailSeen := |s.popped|)
               else && s.head < n
                    && s' == s.(tailSeen := |s.popped|, slots := s.slots[s.head := Some(value)],
                                head := NextIndex(s.head, n), pushed := s.pushed + [value])
                    && s'.Queue() == s.Queue() + [value]
  {
    var begun := Step(s, PushBegin(value)).0;
    StepKeepsInv(s, PushBegin(value));
    PushLoadTailKeepsInv(begun, |s.popped|);
    var (loaded, event) := Step(begun, PushLoadTail(|s.popped|));
    if !event.PushFull? {
      StepKeepsInv(loaded, PushWriteEnd);
      StepKeepsInv(Step(loaded, PushWriteEnd).0, PushPublish);
      assert PushAlone(s, value).Queue() == s.Queue() + [value];
    }
  }

  /** An uninterrupted pop keeps the invariant and takes the oldest value unless none is left. */
  lemma PopAloneTakesOldest<T>(s: State<T>)
    requires Inv(s) && s.cons.ConsIdle?
    ensures var s', n := PopAlone(s), |s.slots|;
            && Inv(s')
            && (s.tail == s.head <==> s.Queue() == [])
            && if s.Queue() == []
               then s' == s.(headSeen := |s.pushed|)
               else && s.tail < n
                    && s.slots[s.tail] == Some(s.Queue()[0])
                    && s' == s.(headSeen := |s.pushed|, slots := s.slots[s.tail := None],
                                tail := NextIndex(s.tail, n), popped := s.popped + [s.Queue()[0]])
                    && s'.Queue() == s.Queue()[1..]
  {
    var begun := Step(s, PopBegin(false)).0;
    StepKeepsInv(s, PopBegin(false));
    PopLoadHeadKeepsInv(begun, |s.pushed|);
    var (loaded, event) := Step(begun, PopLoadHead(|s.pushed|));
    if !event.PopEmpty? {
      ReadIsInitialised(loaded);
      StepKeepsInv(loaded, PopReadEnd);
      StepKeepsInv(Step(loaded, PopReadEnd).0, PopPublish);
      assert PopAlone(s).Queue() == s.Queue()[1..];
    }
  }

  /** Counting slots from the tail, the queue comes first and the rest is uninitialised. */
  lemma SlotFromTail<T>(s: State<T>, i: nat)
    requires Inv(s) && s.prod.ProdIdle? && s.cons.ConsIdle? && i < |s.slots|
    ensures s.slots[(|s.popped| + i) % |s.slots|]
            == (if i < |s.Queue()| then Some(s.Queue()[i]) else None)
  {
    assert s.slots[(|s.popped| + i) % |s.slots|] == SlotContent(s, |s.popped| + i);
  }

  /** Every slot is reached by counting from the tail. */
  lemma OffsetOfSlot(t: nat, j: nat, n: nat) returns (i: nat)
    requires j < n
    ensures i < n && (t + i) % n == j
  {
    i := (j - t) % n;
    var q := t / n + (j - t) / n;
    assert t + i == n * -((j - t) / n) + j;
    ModUnique(t + i, n, -((j - t) / n), j);
  }

  /**
   * A slot is reused n pushes later: by then its value was popped, and a reference to it that
   * is still held sees the new value.
   */
  lemma SlotIsReused<T>(s: State<T>, k: nat, value: T)
    requires Inv(s) && s.prod.ProdIdle? && |s.pushed| == k + |s.slots| && |s.Queue()| < |s.slots| - 1
    ensures k < |s.popped| && k % |s.slots| < |PushAlone(s, value).slots|
    ensures PushAlone(s, value).slots[k % |s.slots|] == Some(value)
  {
    ModAddLap(k, |s.slots|);
    PushAloneAppends(s, value);
  }

  class RingBuffer<T> {
    var head: nat
    var tail: nat
    var buffer: array<Option<T>>

    ghost var pushed: seq<T>
    ghost var popped: seq<T>
    ghost var tailSeen: nat
    ghost var headSeen: nat

    ghost function State(): State<T>
      reads this, buffer
    {
      RingProtocol.State.State(head, tail, buffer[..], ProdIdle, ConsIdle, pushed, popped, tailSeen, headSeen)
    }

    ghost predicate Valid()
      reads this, buffer
    {
      Inv(State()) && buffer.Length < WORD_MODULUS
    }

    /** The values in the buffer, oldest first. */
    ghost function Contents(): seq<T>
      requires Valid()
      reads this, buffer
    {
      State().Queue()
    }

    constructor (n: nat)
      requires IsPowerOfTwo(n) && n < WORD_MODULUS
      ensures Valid() && fresh(buffer) && buffer.Length == n && Contents() == []
    {
      head, tail := 0, 0;
      buffer := new Option<T>[n](_ => None);
      pushed, popped, tailSeen, headSeen := [], [], 0, 0;
      new;
      assert State() == Init<T>(n);
      InitInv<T>(n);
    }

    method PushInternal(value: T) returns (r: Result<(), T>)
      requires Valid()
      modifies this, buffer
      ensures Valid() && buffer == old(buffer)
      ensures State() == PushAlone(old(State()), value)
      ensures if |old(Contents())| == buffer.Length - 1
              then r == Err(value) && Contents() == old(Contents())
              else r == Ok(()) && Contents() == old(Contents()) + [value]
    {
      ghost var s := State();
      ghost var s' := PushAlone(s, value);
      PushAloneAppends(s, value);
      var h := head;
      var t := tail;
      tailSeen := |popped|;
      var nextHead := NextIndex(h, buffer.Length);
      if nextHead == t {
        assert State() == s';
        return Err(value);
      }
      buffer[h] := Some(value);
      head := nextHead;
      pushed := pushed + [value];
      assert State() == s';
      return Ok(());
    }

    method PopInternal() returns (r: Option<T>)
      requires Valid()
      modifies this, buffer
      ensures Valid() && buffer == old(buffer)
      ensures State() == PopAlone(old(State()))
      ensures if old(Contents()) == []
              then r == None && Contents() == []
              else r == Some(old(Contents())[0]) && Contents() == old(Contents())[1..]
    {
      ghost var s := State();
      ghost var s' := PopAlone(s);
      PopAloneTakesOldest(s);
      var t := tail;
      var h := head;
      headSeen := |pushed|;
      if t == h {
        assert State() == s';
        return None;
      }
      var value := buffer[t].value;
      buffer[t] := None;  // the value is moved out
      tail := NextIndex(t, buffer.Length);
      popped := popped + [value];
      assert State() == s';
      return Some(value);
    }

    method PeekInternal() returns (r: Option<T>)
      requires Valid()
      ensures r == if Contents() == [] then None else Some(Contents()[0])
    {
      SlotFromTail(State(), 0);
      if Contents() != [] && head == tail {
        ModInjective(|popped|, |pushed|, buffer.Length);
      }
      if tail == head {
        return None;
      }
      return buffer[tail];
    }

    method Len() returns (count: nat)
      requires Valid()
      ensures count == |Contents()| <= buffer.Length - 1
    {
      WrappedDistance(|pushed|, |popped|, buffer.Length);
      count := BitAnd(WrappingSub(head, tail), buffer.Length - 1);
    }

    method IsFull() returns (full: bool)
      requires Valid()
      ensures full <==> |Contents()| == buffer.Length - 1
    {
      NextIndexOfCounter(|pushed|, buffer.Length);
      ModAddLap(|popped|, buffer.Length);
      if (|pushed| + 1) % buffer.Length == |popped| % buffer.Length {
        ModInjective(|pushed| + 1, |popped| + buffer.Length, buffer.Length);
      }
      full := NextIndex(head, buffer.Length) == tail;
    }

    /** Releases the values left in the buffer, each once, and no slot twice. */
    method Drop() returns (released: seq<T>)
      requires Valid()
      modifies buffer
      ensures released == old(Contents())
      ensures forall j :: 0 <= j < buffer.Length ==> buffer[j] == None
    {
      ghost var s, queue := State(), Contents();
      released := [];
      var idx := tail;
      while idx != head
        invariant |released| <= |queue| && released == queue[..|released|]
        invariant idx == SlotAt(s, |released|)
        invariant Released(buffer[..], s, |released|)
        decreases |queue| - |released|
      {
        ReleaseNext(buffer[..], s, |released|);
        released := released + [buffer[idx].value];
        buffer[idx] := None;
        idx := NextIndex(idx, buffer.Length);
      }
      ReleaseEnds(s, |released|);
      AllReleased(buffer[..], s);
    }
  }

  /** The slot that lies `i` places after the tail. */
  ghost function SlotAt<T>(s: State<T>, i: nat): nat
    requires |s.slots| > 0
  {
    (|s.popped| + i) % |s.slots|
  }

  /** The first `m` slots from the tail are released and the others are as they were in `s`. */
  ghost predicate Released<T>(slots: seq<Option<T>>, s: State<T>, m: nat) {
    |slots| == |s.slots| > 0 &&
    forall i: nat :: i < |slots| ==>
      slots[SlotAt(s, i)] == if i < m then None else s.slots[SlotAt(s, i)]
  }

  lemma ReleaseOne<T>(slots: seq<Option<T>>, s: State<T>, m: nat)
    requires Released(slots, s, m) && m < |slots|
    ensures slots[SlotAt(s, m)] == s.slots[SlotAt(s, m)]
    ensures Released(slots[SlotAt(s, m) := None], s, m + 1)
  {
    var n, t := |slots|, |s.popped|;
    forall i: nat | i < n && i != m ensures SlotAt(s, i) != SlotAt(s, m) {
      if SlotAt(s, i) == SlotAt(s, m) {
        if i < m { ModInjective(t + i, t + m, n); } else { ModInjective(t + m, t + i, n); }
      }
    }
  }

  /** Before the head there is another value to release, in the slot after the ones released. */
  lemma ReleaseNext<T>(slots: seq<Option<T>>, s: State<T>, m: nat)
    requires Inv(s) && s.prod.ProdIdle? && s.cons.ConsIdle?
    requires Released(slots, s, m) && m <= |s.Queue()| && SlotAt(s, m) != s.head
    ensures m < |s.Queue()| && slots[SlotAt(s, m)] == Some(s.Queue()[m])
    ensures Released(slots[SlotAt(s, m) := None], s, m + 1)
    ensures NextIndex(SlotAt(s, m), |slots|) == SlotAt(s, m + 1)
  {
    assert |s.popped| + |s.Queue()| == |s.pushed|;
    SlotFromTail(s, m);
    ReleaseOne(slots, s, m);
    NextIndexOfCounter(|s.popped| + m, |slots|);
  }

  /** The loop over the slots ends only behind the last value. */
  lemma ReleaseEnds<T>(s: State<T>, m: nat)
    requires Inv(s) && m <= |s.Queue()| && SlotAt(s, m) == s.head
    ensures m == |s.Queue()|
  {
    ModInjective(|s.popped| + m, |s.pushed|, |s.slots|);
  }

  lemma AllReleased<T>(slots: seq<Option<T>>, s: State<T>)
    requires Inv(s) && s.prod.ProdIdle? && s.cons.ConsIdle?
    requires Released(slots, s, |s.Queue()|)
    ensures forall j :: 0 <= j < |slots| ==> slots[j] == None
  {
    forall j: nat | j < |slots| ensures slots[j] == None {
      var i := OffsetOfSlot(|s.popped|, j, |slots|);
      SlotFromTail(s, i);
      assert slots[SlotAt(s, i)] == if i < |s.Queue()| then None else s.slots[SlotAt(s, i)];
    }
  }
}
