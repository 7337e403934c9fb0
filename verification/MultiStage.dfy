/** The handle of the four-stage pipeline: its controls, its input sender and its output receiver. */
module MultiStage {
  import opened Wrappers
  import opened Channel
  import C = StageControl

  datatype PipelineState = Starting | Running | Stopping | Stopped

  class MultiStagePipeline<I, O> {
    const stages: seq<C.StageControl>
    const input: Channel<I>
    const output: Channel<O>
    var state: PipelineState
    var holdsInput: bool

    /** Four stages with controls of their own; the output receiver lives as long as the pipeline. */
    ghost predicate Valid()
      reads this, input, output
    {
      && |stages| == 4
      && (forall i, j :: 0 <= i < j < |stages| ==> stages[i] != stages[j])
      && (input as object) != output
      && input.Valid() && output.Valid()
      && input.senderAlive == holdsInput
      && output.receiverAlive
    }

    constructor (capacity: nat)
      ensures Valid() && fresh(input) && fresh(output) && fresh(set c | c in stages)
      ensures state == Running && holdsInput
      ensures input.capacity == output.capacity == capacity && input.queue == [] && output.queue == []
      ensures forall c :: c in stages ==> c.View() == C.Initial()
    {
      var ingestion := new C.StageControl();
      var filtering := new C.StageControl();
      var aggregation := new C.StageControl();
      var out := new C.StageControl();
      stages := [ingestion, filtering, aggregation, out];
      input := new Channel<I>(capacity);
      output := new Channel<O>(capacity);
      state, holdsInput := Running, true;
    }

    /** The loop behind pausing, resuming and resetting all stages. */
    method CommandAll(c: C.Command)
      requires Valid()
      modifies stages
      ensures Valid()
      ensures forall s :: s in stages ==> s.View() == C.Commanded(old(s.View()), c)
    {
      for i := 0 to |stages|
        invariant Valid()
        invariant forall j :: 0 <= j < i ==> stages[j].View() == C.Commanded(old(stages[j].View()), c)
        invariant forall j :: i <= j < |stages| ==> stages[j].View() == old(stages[j].View())
      {
        stages[i].SetCommand(c);
      }
    }

    method Pause()
      requires Valid()
      modifies stages
      ensures Valid()
      ensures forall s :: s in stages ==> s.paused && s.shutdown == old(s.shutdown)
    {
      CommandAll(C.Command.Pause);
      assert forall s :: s in stages ==> s.View().paused && s.View().shutdown == old(s.View()).shutdown;
    }

    method Resume()
      requires Valid()
      modifies stages
      ensures Valid()
      ensures forall s :: s in stages ==> !s.paused && s.shutdown == old(s.shutdown)
    {
      CommandAll(C.Command.Resume);
      assert forall s :: s in stages ==> !s.View().paused && s.View().shutdown == old(s.View()).shutdown;
    }

    method Reset()
      requires Valid()
      modifies stages
      ensures Valid()
      ensures forall s :: s in stages ==>
                s.View() == old(s.View()).(command := C.Command.Reset)
    {
      CommandAll(C.Command.Reset);
    }

    /** All flags are raised before the input is closed. */
    method Shutdown()
      requires Valid()
      modifies this, input`senderAlive, stages
      ensures Valid() && state == Stopping && !holdsInput
      ensures forall s :: s in stages ==> s.shutdown && s.paused == old(s.paused)
    {
      state := Stopping;
      for i := 0 to |stages|
        invariant Valid() && state == Stopping
        invariant forall j :: 0 <= j < i ==> stages[j].shutdown && stages[j].paused == old(stages[j].paused)
        invariant forall j :: i <= j < |stages| ==> stages[j].View() == old(stages[j].View())
      {
        stages[i].RequestShutdown();
        assert stages[i].View() == old(stages[i].View()).(command := C.Command.Shutdown, shutdown := true);
      }
      holdsInput := false;
      input.senderAlive := false;
    }

    /** Hands the value back if the pipeline was shut down, the first stage is gone or the queue full. */
    method TrySend(value: I) returns (result: Result<(), I>)
      requires Valid()
      modifies input
      ensures Valid()
      ensures result.Err? ==> result.error == value
      ensures result.Ok? <==> holdsInput && old(input.receiverAlive) && old(|input.queue|) < input.capacity
      ensures input.accepted == if result.Ok? then old(input.accepted) + [value] else old(input.accepted)
    {
      if !holdsInput {
        return Err(value);
      }
      var sent := input.TrySend(value);
      result := if sent.Ok? then Ok(()) else Err(value);
    }

    /** The next value in the order of the output channel, if there is one. */
    method TryRecv() returns (result: Option<O>)
      requires Valid()
      modifies output
      ensures Valid()
      ensures result.Some? <==> old(output.queue) != []
      ensures output.taken == if result.Some? then old(output.taken) + [result.value] else old(output.taken)
      ensures output.accepted == old(output.accepted)
    {
      var received := output.TryRecv();
      result := if received.Ok? then Some(received.value) else None;
    }
  }
}
