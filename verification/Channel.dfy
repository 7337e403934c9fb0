/** A bounded channel between two stages. */
module Channel {
  import opened Wrappers

  datatype SendError = Full | Disconnected

  datatype RecvError = Empty | SenderGone

  /** A send that does not wait; a dropped receiver is reported before a full queue. */
  function TrySendResult(length: nat, capacity: nat, receiverAlive: bool): Result<(), SendError> {
    if !receiverAlive then Err(Disconnected)
    else if length >= capacity then Err(Full)
    else Ok(())
  }

  /** Values still queued are received before the loss of the sender is reported. */
  function RecvResult<T>(queue: seq<T>, senderAlive: bool): Result<T, RecvError> {
    if queue != [] then Ok(queue[0])
    else if senderAlive then Err(Empty)
    else Err(SenderGone)
  }

  /** Both halves of a channel, with the metrics they share. */
  class Channel<T> {
    const capacity: nat
    var queue: seq<T>
    var senderAlive: bool
    var receiverAlive: bool
    var sentCount: nat
    var receivedCount: nat
    var droppedCount: nat
    ghost var accepted: seq<T>
    ghost var taken: seq<T>

    /** First in, first out: what was accepted is what was taken followed by what is queued. */
    ghost predicate Valid()
      reads this
    {
      && accepted == taken + queue
      && |queue| <= capacity
      && sentCount == |accepted|
      && receivedCount == |taken|
    }

    constructor (capacity: nat)
      ensures Valid() && this.capacity == capacity && senderAlive && receiverAlive
      ensures accepted == taken == [] && droppedCount == 0
    {
      this.capacity := capacity;
      queue, senderAlive, receiverAlive := [], true, true;
      sentCount, receivedCount, droppedCount := 0, 0, 0;
      accepted, taken := [], [];
    }

    method TrySend(value: T) returns (result: Result<(), SendError>)
      requires Valid()
      modifies this`queue, this`sentCount, this`droppedCount, this`accepted
      ensures Valid()
      ensures result == TrySendResult(old(|queue|), capacity, receiverAlive)
      ensures result.Ok? <==> receiverAlive && old(|queue|) < capacity
      ensures result == Err(Disconnected) <==> !receiverAlive
      ensures accepted == if result.Ok? then old(accepted) + [value] else old(accepted)
      ensures droppedCount == old(droppedCount) + if result == Err(Full) then 1 else 0
    {
      if !receiverAlive {
        return Err(Disconnected);
      }
      if |queue| >= capacity {
        droppedCount := droppedCount + 1;
        return Err(Full);
      }
      queue := queue + [value];
      sentCount := sentCount + 1;
      accepted := accepted + [value];
      return Ok(());
    }

    /** True if and only if the value was queued; any failed send drops it. */
    method SendOrDrop(value: T) returns (sent: bool)
      requires Valid()
      modifies this`queue, this`sentCount, this`droppedCount, this`accepted
      ensures Valid()
      ensures sent <==> receiverAlive && old(|queue|) < capacity
      ensures accepted == if sent then old(accepted) + [value] else old(accepted)
      ensures droppedCount == old(droppedCount) + if receiverAlive && !sent then 1 else 0
    {
      var result := TrySend(value);
      sent := result.Ok?;
    }

    method TryRecv() returns (result: Result<T, RecvError>)
      requires Valid()
      modifies this`queue, this`receivedCount, this`taken
      ensures Valid()
      ensures result == RecvResult(old(queue), senderAlive)
      ensures result.Ok? <==> old(queue) != []
      ensures result == Err(SenderGone) <==> old(queue) == [] && !senderAlive
      ensures taken == if result.Ok? then old(taken) + [result.value] else old(taken)
    {
      if queue == [] {
        return if senderAlive then Err(Empty) else Err(SenderGone);
      }
      result := Ok(queue[0]);
      taken := taken + [queue[0]];
      queue := queue[1..];
      receivedCount := receivedCount + 1;
    }
  }
}
