/**
 * The single-producer single-consumer protocol, one atomic access per step.
 *
 * Each side loads its own index, loads the other side's index, touches one slot and then
 * publishes. A slot access is not atomic, so it has a begin and an end. The load of the other
 * side's index may return any value that index has held since this side last looked at it.
 *
 * The accepted pushes and the completed pops are recorded, and their lengths are the
 * unbounded counters behind the wrapped indices `head` and `tail`.
 */
module RingProtocol {
  import opened Wrappers
  import opened Bits

  datatype Producer<T> =
    | ProdIdle
    | ProdHaveHead(value: T, head: nat)
    | ProdWriting(value: T, head: nat)
    | ProdWritten(value: T, head: nat)

  datatype Consumer<T> =
    | ConsIdle
    | ConsHaveTail(tail: nat, peek: bool)
    | ConsReading(tail: nat, peek: bool)
    | ConsTaken(tail: nat, value: T)

  datatype State<T> = State(
    head: nat,
    tail: nat,
    slots: seq<Option<T>>,  // None is an uninitialised (or moved-out) slot
    prod: Producer<T>,
    cons: Consumer<T>,
    pushed: seq<T>,
    popped: seq<T>,
    tailSeen: nat,  // the counter behind the producer's last view of `tail`
    headSeen: nat)  // the counter behind the consumer's last view of `head`
  {
    function Queue(): seq<T>
      requires |popped| <= |pushed|
    {
      pushed[|popped|..]
    }
  }

  datatype Action<T> =
    | PushBegin(value: T)
    | PushLoadTail(seen: nat)
    | PushWriteEnd
    | PushPublish
    | PopBegin(peek: bool)
    | PopLoadHead(seen: nat)
    | PopReadEnd
    | PopPublish

  datatype Event<T> =
    | Silent
    | Pushed(value: T)
    | PushFull
    | Popped(value: T)
    | Peeked(value: T)
    | PopEmpty
    | ReadUninitialised

  function NextIndex(index: nat, n: nat): nat
    requires n > 0
  {
    BitAnd(index + 1, n - 1)
  }

  function Init<T>(n: nat): State<T> {
    State(0, 0, seq(n, _ => None), ProdIdle, ConsIdle, [], [], 0, 0)
  }

  predicate Enabled<T>(s: State<T>, a: Action<T>) {
    match a
    case PushBegin(_) => s.prod.ProdIdle?
    case PushLoadTail(seen) => s.prod.ProdHaveHead? && s.tailSeen <= seen <= |s.popped|
    case PushWriteEnd => s.prod.ProdWriting? && s.prod.head < |s.slots|
    case PushPublish => s.prod.ProdWritten?
    case PopBegin(_) => s.cons.ConsIdle?
    case PopLoadHead(seen) => s.cons.ConsHaveTail? && s.headSeen <= seen <= |s.pushed|
    case PopReadEnd => s.cons.ConsReading? && s.cons.tail < |s.slots|
    case PopPublish => s.cons.ConsTaken?
  }

  function Step<T>(s: State<T>, a: Action<T>): (State<T>, Event<T>)
    requires |s.slots| > 0 && Enabled(s, a)
  {
    var n := |s.slots|;
    match a
    case PushBegin(v) =>
      (s.(prod := ProdHaveHead(v, s.head)), Silent)
    case PushLoadTail(seen) =>
      if NextIndex(s.prod.head, n) == seen % n
      then (s.(prod := ProdIdle, tailSeen := seen), PushFull)
      else (s.(prod := ProdWriting(s.prod.value, s.prod.head), tailSeen := seen), Silent)
    case PushWriteEnd =>
      (s.(slots := s.slots[s.prod.head := Some(s.prod.value)],
          prod := ProdWritten(s.prod.value, s.prod.head)), Silent)
    case PushPublish =>
      (s.(head := NextIndex(s.prod.head, n), pushed := s.pushed + [s.prod.value], prod := ProdIdle),
       Pushed(s.prod.value))
    case PopBegin(peek) =>
      (s.(cons := ConsHaveTail(s.tail, peek)), Silent)
    case PopLoadHead(seen) =>
      if s.cons.tail == seen % n
      then (s.(cons := ConsIdle, headSeen := seen), PopEmpty)
      else (s.(cons := ConsReading(s.cons.tail, s.cons.peek), headSeen := seen), Silent)
    case PopReadEnd =>
      (match s.slots[s.cons.tail]
       case None => (s.(cons := ConsIdle), ReadUninitialised)
       case Some(v) =>
         if s.cons.peek
         then (s.(cons := ConsIdle), Peeked(v))
         else (s.(slots := s.slots[s.cons.tail := None], cons := ConsTaken(s.cons.tail, v)), Silent))
    case PopPublish =>
      (s.(tail := NextIndex(s.cons.tail, n), popped := s.popped + [s.cons.value], cons := ConsIdle),
       Popped(s.cons.value))
  }

  /** A schedule is any interleaving of enabled steps of the two sides. */
  predicate IsSchedule<T>(n: nat, schedule: seq<Action<T>>)
    decreases |schedule|, 1
  {
    n > 0 &&
    (schedule == [] ||
     (IsSchedule(n, schedule[..|schedule| - 1]) &&
      Enabled(After(n, schedule[..|schedule| - 1]), schedule[|schedule| - 1])))
  }

  function After<T>(n: nat, schedule: seq<Action<T>>): (s: State<T>)
    requires IsSchedule(n, schedule)
    ensures |s.slots| == n
    decreases |schedule|, 2
  {
    if schedule == [] then Init(n)
    else Step(After(n, schedule[..|schedule| - 1]), schedule[|schedule| - 1]).0
  }

  function Trace<T>(n: nat, schedule: seq<Action<T>>): seq<Event<T>>
    requires IsSchedule(n, schedule)
  {
    if schedule == [] then []
    else
      var before := schedule[..|schedule| - 1];
      Trace(n, before) + [Step(After(n, before), schedule[|schedule| - 1]).1]
  }

  // ---------- The specification: a bounded first-in first-out queue ----------

  /**
   * The queue after one event, or None when the event is not allowed. With `exact`, a push is
   * refused only by a full queue and a pop only by an empty one.
   */
  function FifoStep<T(==)>(q: seq<T>, e: Event<T>, capacity: nat, exact: bool): Option<seq<T>> {
    match e
    case Silent => Some(q)
    case Pushed(v) => if |q| < capacity then Some(q + [v]) else None
    case PushFull => if exact && |q| != capacity then None else Some(q)
    case Popped(v) => if |q| > 0 && q[0] == v then Some(q[1..]) else None
    case Peeked(v) => if |q| > 0 && q[0] == v then Some(q) else None
    case PopEmpty => if exact && |q| != 0 then None else Some(q)
    case ReadUninitialised => None
  }

  function FifoRun<T(==)>(trace: seq<Event<T>>, capacity: nat, exact: bool): Option<seq<T>> {
    if trace == [] then Some([])
    else match FifoRun(trace[..|trace| - 1], capacity, exact)
      case None => None
      case Some(q) => FifoStep(q, trace[|trace| - 1], capacity, exact)
  }

  // ---------- The invariant ----------

  /** What slot `k % n` holds, for a counter `k` in the lap that starts at the tail counter. */
  ghost function SlotContent<T>(s: State<T>, k: nat): Option<T> {
    if k < |s.pushed| then
      if k == |s.popped| && s.cons.ConsTaken? then None else Some(s.pushed[k])
    else if k == |s.pushed| && s.prod.ProdWritten? then Some(s.prod.value)
    else None
  }

  ghost predicate CountersAgree<T>(s: State<T>) {
    var n, h, t := |s.slots|, |s.pushed|, |s.popped|;
    && IsPowerOfTwo(n)
    && s.head == h % n
    && s.tail == t % n
    && s.tailSeen <= t <= s.headSeen <= h < s.tailSeen + n
    && s.popped <= s.pushed
  }

  ghost predicate ProducerAgrees<T>(s: State<T>) {
    match s.prod
    case ProdIdle => true
    case ProdHaveHead(_, head) => head == s.head
    case ProdWriting(_, head) => head == s.head && |s.pushed| + 1 < s.tailSeen + |s.slots|
    case ProdWritten(_, head) => head == s.head && |s.pushed| + 1 < s.tailSeen + |s.slots|
  }

  ghost predicate ConsumerAgrees<T>(s: State<T>) {
    match s.cons
    case ConsIdle => true
    case ConsHaveTail(tail, _) => tail == s.tail
    case ConsReading(tail, _) => tail == s.tail && |s.popped| < s.headSeen
    case ConsTaken(tail, v) =>
      tail == s.tail && |s.popped| < s.headSeen <= |s.pushed| && v == s.pushed[|s.popped|]
  }

  ghost predicate SlotsAgree<T>(s: State<T>)
    requires |s.slots| > 0
  {
    forall k: nat {:trigger SlotContent(s, k)} ::
      |s.popped| <= k < |s.popped| + |s.slots| ==> s.slots[k % |s.slots|] == SlotContent(s, k)
  }

  ghost predicate Inv<T>(s: State<T>) {
    CountersAgree(s) && ProducerAgrees(s) && ConsumerAgrees(s) && SlotsAgree(s)
  }

  lemma NextIndexIsMod(index: nat, n: nat)
    requires IsPowerOfTwo(n)
    ensures NextIndex(index, n) == (index + 1) % n
  {
    var k := ExponentOf(n);
    MaskIsMod(index + 1, k);
  }

  /** The wrapped successor of an index stands for the successor of its counter. */
  lemma NextIndexOfCounter(c: nat, n: nat)
    requires IsPowerOfTwo(n)
    ensures NextIndex(c % n, n) == (c + 1) % n
  {
    NextIndexIsMod(c % n, n);
    ModSucc(c, n);
  }

  lemma InitInv<T>(n: nat)
    requires IsPowerOfTwo(n)
    ensures Inv(Init<T>(n))
  {
  }

  /** Storing into one slot changes the content of one counter of the lap only. */
  lemma UpdateSlot<T>(s: State<T>, s': State<T>, c: nat, x: Option<T>)
    requires |s.slots| > 0 && SlotsAgree(s)
    requires |s.popped| <= c < |s.popped| + |s.slots|
    requires s'.popped == s.popped && s'.slots == s.slots[c % |s.slots| := x]
    requires SlotContent(s', c) == x
    requires forall k: nat :: k != c ==> SlotContent(s', k) == SlotContent(s, k)
    ensures SlotsAgree(s')
  {
    var n := |s.slots|;
    forall k: nat | |s'.popped| <= k < |s'.popped| + n
      ensures s'.slots[k % n] == SlotContent(s', k)
    {
      if k != c && k % n == c % n {
        if k < c { ModInjective(k, c, n); } else { ModInjective(c, k, n); }
      }
      assert s.slots[k % n] == SlotContent(s, k);
    }
  }

  lemma PushLoadTailKeepsInv<T>(s: State<T>, seen: nat)
    requires Inv(s) && Enabled(s, PushLoadTail(seen))
    ensures Inv(Step(s, PushLoadTail(seen)).0)
    ensures Step(s, PushLoadTail(seen)).1.PushFull? <==> |s.pushed| + 1 == seen + |s.slots|
  {
    var n, h := |s.slots|, |s.pushed|;
    var s' := Step(s, PushLoadTail(seen)).0;
    NextIndexOfCounter(h, n);
    ModAddLap(seen, n);
    if (h + 1) % n == seen % n {
      ModInjective(h + 1, seen + n, n);
    }
    forall k: nat ensures SlotContent(s', k) == SlotContent(s, k) {}
  }

  lemma PushWriteEndKeepsInv<T>(s: State<T>)
    requires Inv(s) && Enabled(s, PushWriteEnd)
    ensures Inv(Step(s, PushWriteEnd).0)
  {
    UpdateSlot(s, Step(s, PushWriteEnd).0, |s.pushed|, Some(s.prod.value));
  }

  lemma PushPublishKeepsInv<T>(s: State<T>)
    requires Inv(s) && Enabled(s, PushPublish)
    ensures Inv(Step(s, PushPublish).0)
  {
    NextIndexOfCounter(|s.pushed|, |s.slots|);
    var s' := Step(s, PushPublish).0;
    forall k: nat ensures SlotContent(s', k) == SlotContent(s, k) {}
  }

  lemma PopLoadHeadKeepsInv<T>(s: State<T>, seen: nat)
    requires Inv(s) && Enabled(s, PopLoadHead(seen))
    ensures Inv(Step(s, PopLoadHead(seen)).0)
    ensures Step(s, PopLoadHead(seen)).1.PopEmpty? <==> |s.popped| == seen
  {
    var s' := Step(s, PopLoadHead(seen)).0;
    if s.tail == seen % |s.slots| {
      ModInjective(|s.popped|, seen, |s.slots|);
    }
    forall k: nat ensures SlotContent(s', k) == SlotContent(s, k) {}
  }

  /** The slot that the consumer reads is initialised and holds the oldest unpopped value. */
  lemma ReadIsInitialised<T>(s: State<T>)
    requires Inv(s) && Enabled(s, PopReadEnd)
    ensures s.slots[s.cons.tail] == Some(s.pushed[|s.popped|])
  {
    assert s.slots[|s.popped| % |s.slots|] == SlotContent(s, |s.popped|);
  }

  lemma PopReadEndKeepsInv<T>(s: State<T>)
    requires Inv(s) && Enabled(s, PopReadEnd)
    ensures Inv(Step(s, PopReadEnd).0)
  {
    ReadIsInitialised(s);
    var s' := Step(s, PopReadEnd).0;
    if s.cons.peek {
      forall k: nat ensures SlotContent(s', k) == SlotContent(s, k) {}
    } else {
      UpdateSlot(s, s', |s.popped|, None);
    }
  }

  lemma PopPublishKeepsInv<T>(s: State<T>)
    requires Inv(s) && Enabled(s, PopPublish)
    ensures Inv(Step(s, PopPublish).0)
  {
    var n, t := |s.slots|, |s.popped|;
    NextIndexOfCounter(t, n);
    ModAddLap(t, n);
    var s' := Step(s, PopPublish).0;
    forall k: nat | t + 1 <= k < t + 1 + n ensures s'.slots[k % n] == SlotContent(s', k) {
      if k == t + n {
        assert s.slots[t % n] == SlotContent(s, t);
      } else {
        assert s.slots[k % n] == SlotContent(s, k);
      }
    }
  }

  lemma BeginKeepsInv<T>(s: State<T>, a: Action<T>)
    requires Inv(s) && Enabled(s, a) && (a.PushBegin? || a.PopBegin?)
    ensures Inv(Step(s, a).0)
  {
    var s' := Step(s, a).0;
    forall k: nat ensures SlotContent(s', k) == SlotContent(s, k) {}
  }

  lemma StepKeepsInv<T>(s: State<T>, a: Action<T>)
    requires Inv(s) && Enabled(s, a)
    ensures Inv(Step(s, a).0)
  {
    match a
    case PushBegin(_) => BeginKeepsInv(s, a);
    case PushLoadTail(seen) => PushLoadTailKeepsInv(s, seen);
    case PushWriteEnd => PushWriteEndKeepsInv(s);
    case PushPublish => PushPublishKeepsInv(s);
    case PopBegin(_) => BeginKeepsInv(s, a);
    case PopLoadHead(seen) => PopLoadHeadKeepsInv(s, seen);
    case PopReadEnd => PopReadEndKeepsInv(s);
    case PopPublish => PopPublishKeepsInv(s);
  }

  lemma {:induction false} ReachableInv<T>(n: nat, schedule: seq<Action<T>>)
    requires IsPowerOfTwo(n) && IsSchedule(n, schedule)
    ensures Inv(After(n, schedule))
  {
    if schedule == [] {
      InitInv<T>(n);
    } else {
      var before := schedule[..|schedule| - 1];
      ReachableInv(n, before);
      StepKeepsInv(After(n, before), schedule[|schedule| - 1]);
    }
  }

  // ---------- Safety over every schedule ----------

  /**
   * However the two sides interleave and however stale their views are, the popped values are
   * a prefix of the accepted ones and at most n - 1 values are outstanding.
   */
  lemma PoppedIsPrefixOfPushed<T>(n: nat, schedule: seq<Action<T>>)
    requires IsPowerOfTwo(n) && IsSchedule(n, schedule)
    ensures var s := After(n, schedule);
            s.popped <= s.pushed && |s.pushed| - |s.popped| <= n - 1
  {
    ReachableInv(n, schedule);
  }

  /** The two sides are never inside the same slot at the same time. */
  lemma NoSlotRace<T>(n: nat, schedule: seq<Action<T>>)
    requires IsPowerOfTwo(n) && IsSchedule(n, schedule)
    ensures var s := After(n, schedule);
            s.prod.ProdWriting? && s.cons.ConsReading? ==> s.prod.head != s.cons.tail
  {
    ReachableInv(n, schedule);
    var s := After(n, schedule);
    if s.prod.ProdWriting? && s.cons.ConsReading? && s.prod.head == s.cons.tail {
      ModInjective(|s.popped|, |s.pushed|, n);
    }
  }

  /** Writes land in uninitialised slots, so no accepted value is overwritten. */
  lemma WritesFindEmptySlot<T>(n: nat, schedule: seq<Action<T>>)
    requires IsPowerOfTwo(n) && IsSchedule(n, schedule)
    ensures var s := After(n, schedule);
            s.prod.ProdWriting? ==> s.prod.head < n && s.slots[s.prod.head] == None
  {
    ReachableInv(n, schedule);
    var s := After(n, schedule);
    if s.prod.ProdWriting? {
      assert s.slots[|s.pushed| % n] == SlotContent(s, |s.pushed|);
    }
  }

  /** Every load of this schedule returned the newest value. */
  predicate IsFresh<T>(n: nat, schedule: seq<Action<T>>)
    requires IsSchedule(n, schedule)
  {
    schedule == [] ||
    (var before := schedule[..|schedule| - 1];
     var s := After(n, before);
     IsFresh(n, before) &&
     match schedule[|schedule| - 1]
     case PushLoadTail(seen) => seen == |s.popped|
     case PopLoadHead(seen) => seen == |s.pushed|
     case _ => true)
  }

  lemma StepRefinesFifo<T>(s: State<T>, a: Action<T>, exact: bool)
    requires Inv(s) && Enabled(s, a)
    requires exact && a.PushLoadTail? ==> a.seen == |s.popped|
    requires exact && a.PopLoadHead? ==> a.seen == |s.pushed|
    ensures var (s', e) := Step(s, a);
            |s'.popped| <= |s'.pushed| && FifoStep(s.Queue(), e, |s.slots| - 1, exact) == Some(s'.Queue())
  {
    match a
    case PushLoadTail(seen) => PushLoadTailKeepsInv(s, seen);
    case PopLoadHead(seen) => PopLoadHeadKeepsInv(s, seen);
    case PopReadEnd => ReadIsInitialised(s);
    case PushPublish =>
      assert Step(s, a).0.Queue() == s.Queue() + [s.prod.value];
    case PopPublish =>
      assert Step(s, a).0.Queue() == s.Queue()[1..];
    case _ =>
  }

  lemma FifoRunSnoc<T>(trace: seq<Event<T>>, e: Event<T>, capacity: nat, exact: bool)
    requires FifoRun(trace, capacity, exact).Some?
    ensures FifoRun(trace + [e], capacity, exact)
            == FifoStep(FifoRun(trace, capacity, exact).value, e, capacity, exact)
  {
    assert (trace + [e])[..|trace|] == trace;
  }

  lemma ExtendRun<T>(s: State<T>, trace: seq<Event<T>>, a: Action<T>, exact: bool)
    requires Inv(s) && Enabled(s, a)
    requires exact && a.PushLoadTail? ==> a.seen == |s.popped|
    requires exact && a.PopLoadHead? ==> a.seen == |s.pushed|
    requires |s.slots| > 0 && FifoRun(trace, |s.slots| - 1, exact) == Some(s.Queue())
    ensures var (s', e) := Step(s, a);
            |s'.popped| <= |s'.pushed| && FifoRun(trace + [e], |s.slots| - 1, exact) == Some(s'.Queue())
  {
    StepRefinesFifo(s, a, exact);
    FifoRunSnoc(trace, Step(s, a).1, |s.slots| - 1, exact);
  }

  /**
   * Refinement: the completed operations of any schedule, in the order in which they take
   * effect, are a run of a first-in first-out queue of capacity n - 1. When loads are fresh
   * the queue is exact: refusals happen only at the true limits.
   */
  lemma {:induction false} RefinesBoundedFifo<T>(n: nat, schedule: seq<Action<T>>, exact: bool)
    requires IsPowerOfTwo(n) && IsSchedule(n, schedule)
    requires exact ==> IsFresh(n, schedule)
    ensures var s := After(n, schedule);
            |s.popped| <= |s.pushed| && FifoRun(Trace(n, schedule), n - 1, exact) == Some(s.Queue())
  {
    if schedule == [] {
      ReachableInv(n, schedule);
    } else {
      var before, last := schedule[..|schedule| - 1], schedule[|schedule| - 1];
      var s, trace := After(n, before), Trace(n, before);
      RefinesBoundedFifo(n, before, exact);
      ReachableInv(n, before);
      if exact {
        LastLoadIsFresh(n, schedule);
      }
      assert |s.slots| == n;
      ExtendRun(s, trace, last, exact);
      assert Trace(n, schedule) == trace + [Step(s, last).1] && After(n, schedule) == Step(s, last).0;
    }
  }

  lemma LastLoadIsFresh<T>(n: nat, schedule: seq<Action<T>>)
    requires schedule != [] && IsSchedule(n, schedule) && IsFresh(n, schedule)
    ensures var s, a := After(n, schedule[..|schedule| - 1]), schedule[|schedule| - 1];
            && (a.PushLoadTail? ==> a.seen == |s.popped|)
            && (a.PopLoadHead? ==> a.seen == |s.pushed|)
  {
  }

  /**
   * Between operations the live slots are exactly those between tail and head: each unpopped
   * value sits in one slot, and all the other slots are uninitialised.
   */
  lemma QuiescentSlots<T>(n: nat, schedule: seq<Action<T>>, i: nat)
    requires IsPowerOfTwo(n) && IsSchedule(n, schedule) && i < n
    requires After(n, schedule).prod.ProdIdle? && After(n, schedule).cons.ConsIdle?
    ensures var s := After(n, schedule);
            && |s.popped| <= |s.pushed|
            && s.slots[(|s.popped| + i) % n]
               == (if i < |s.Queue()| then Some(s.Queue()[i]) else None)
  {
    ReachableInv(n, schedule);
    var s := After(n, schedule);
    assert s.slots[(|s.popped| + i) % n] == SlotContent(s, |s.popped| + i);
  }

  /**
   * The length computed by the producer from its own index and a view of the tail counts the
   * elements that were in the buffer when the tail had that value.
   */
  lemma ProducerLength<T>(n: nat, schedule: seq<Action<T>>, seen: nat)
    requires IsPowerOfTwo(n) && n < WORD_MODULUS && IsSchedule(n, schedule)
    requires After(n, schedule).tailSeen <= seen <= |After(n, schedule).popped|
    ensures var s := After(n, schedule);
            && s.head < WORD_MODULUS && seen % n < WORD_MODULUS
            && BitAnd(WrappingSub(s.head, seen % n), n - 1) == |s.pushed| - seen
  {
    ReachableInv(n, schedule);
    WrappedDistance(|After(n, schedule).pushed|, seen, n);
  }

  /** The same for the consumer and a view of the head. */
  lemma ConsumerLength<T>(n: nat, schedule: seq<Action<T>>, seen: nat)
    requires IsPowerOfTwo(n) && n < WORD_MODULUS && IsSchedule(n, schedule)
    requires After(n, schedule).headSeen <= seen <= |After(n, schedule).pushed|
    ensures var s := After(n, schedule);
            && s.tail < WORD_MODULUS && seen % n < WORD_MODULUS
            && BitAnd(WrappingSub(seen % n, s.tail), n - 1) == seen - |s.popped|
  {
    ReachableInv(n, schedule);
    WrappedDistance(seen, |After(n, schedule).popped|, n);
  }

  // ---------- References handed out by peek ----------

  lemma StepGrows<T>(s: State<T>, a: Action<T>)
    requires |s.slots| > 0 && Enabled(s, a)
    ensures s.pushed <= Step(s, a).0.pushed && s.popped <= Step(s, a).0.popped
  {
  }

  lemma {:induction false} HistoriesGrow<T>(n: nat, schedule: seq<Action<T>>, longer: seq<Action<T>>)
    requires IsSchedule(n, schedule) && IsSchedule(n, longer) && schedule <= longer
    ensures After(n, schedule).pushed <= After(n, longer).pushed
    ensures After(n, schedule).popped <= After(n, longer).popped
  {
    if |longer| == |schedule| {
      assert longer == schedule;
    } else {
      var before := longer[..|longer| - 1];
      HistoriesGrow(n, schedule, before);
      StepGrows(After(n, before), longer[|longer| - 1]);
    }
  }

  /**
   * A reference to the oldest value stays good until the consumer pops it: as long as nothing
   * more was popped, the producer is never inside that slot, and the slot holds the value unless
   * a pop has just moved it out.
   */
  lemma HeldReferenceIsValid<T>(n: nat, schedule: seq<Action<T>>, longer: seq<Action<T>>)
    requires IsPowerOfTwo(n) && IsSchedule(n, schedule) && IsSchedule(n, longer) && schedule <= longer
    requires |After(n, schedule).popped| < |After(n, schedule).pushed|
    requires |After(n, longer).popped| == |After(n, schedule).popped|
    ensures var s, s' := After(n, schedule), After(n, longer);
            && s.tail < n && s'.tail == s.tail
            && (s'.prod.ProdWriting? ==> s'.prod.head != s.tail)
            && (!s'.cons.ConsTaken? ==> s'.slots[s.tail] == Some(s.pushed[|s.popped|]))
  {
    ReachableInv(n, schedule);
    ReachableInv(n, longer);
    HistoriesGrow(n, schedule, longer);
    var s, s' := After(n, schedule), After(n, longer);
    var t := |s.popped|;
    assert s'.slots[t % n] == SlotContent(s', t);
    if s'.prod.ProdWriting? && s'.prod.head == s.tail {
      ModInjective(t, |s'.pushed|, n);
    }
  }

  /** The values written so far, the one not yet published included. */
  function Written<T>(s: State<T>): nat {
    |s.pushed| + if s.prod.ProdWritten? then 1 else 0
  }

  /**
   * Until the slot is written again, n values later, a reference to the oldest value is good if
   * and only if that value is neither popped nor being popped; otherwise it sees a slot that is
   * already moved out.
   */
  lemma ReferenceIsGoodIff<T>(n: nat, schedule: seq<Action<T>>, longer: seq<Action<T>>)
    requires IsPowerOfTwo(n) && IsSchedule(n, schedule) && IsSchedule(n, longer) && schedule <= longer
    requires |After(n, schedule).popped| < |After(n, schedule).pushed|
    requires Written(After(n, longer)) <= |After(n, schedule).popped| + n
    ensures var s, s' := After(n, schedule), After(n, longer);
            var taken := |s'.popped| > |s.popped| || s'.cons.ConsTaken?;
            && s.tail < n
            && (s'.slots[s.tail] == Some(s.pushed[|s.popped|]) <==> !taken)
            && (s'.slots[s.tail] == None <==> taken)
  {
    ReachableInv(n, schedule);
    ReachableInv(n, longer);
    HistoriesGrow(n, schedule, longer);
    var s, s' := After(n, schedule), After(n, longer);
    var k := |s.popped|;
    if |s'.popped| == k {
      assert s'.slots[k % n] == SlotContent(s', k);
    } else {
      assert s'.slots[(k + n) % n] == SlotContent(s', k + n);
      ModAddLap(k, n);
    }
  }
}
