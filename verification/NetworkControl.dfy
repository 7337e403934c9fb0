/** What shutdown and pause guarantee to whoever requests them, and what they do not. */
module NetworkControl {
  import opened Stages
  import opened Network

  // ---------- Driving one worker ----------

  predicate IsCommand<T>(a: Action<T>) {
    a.BeginCommand? || a.FinishCommand?
  }

  /** What a command, or a step that involves no channel and no stage, makes of a worker. */
  function Reaction<S, T>(stage: Stage<S, T, T>, w: Worker<S, T>, a: Action<T>): Worker<S, T> {
    match a
    case Work(_) => Local(stage, w)
    case BeginCommand(_, c) => Begun(w, c)
    case FinishCommand(_, c) => Finished(w, c)
    case _ => w
  }

  /** Extends a run by an action that only concerns worker `i`. */
  lemma Extend<S, T>(cfg: Config<S, T>, s: State<S, T>, run: seq<Action<T>>, a: Action<T>, i: nat)
    returns (longer: seq<Action<T>>)
    requires Shape(cfg, s) && IsRun(cfg, s, run) && Enabled(cfg, After(cfg, s, run), a)
    requires (a.Work? || IsCommand(a)) && a.i == i
    requires var pc := After(cfg, s, run).workers[i].pc; a.Work? ==> !pc.Receive? && !pc.Sending? && !pc.InHand?
    ensures longer == run + [a] && IsRun(cfg, s, longer) && Shape(cfg, After(cfg, s, longer))
    ensures After(cfg, s, longer).workers[i] == Reaction(cfg.stages[i], After(cfg, s, run).workers[i], a)
    ensures After(cfg, s, longer).queues == After(cfg, s, run).queues
    ensures After(cfg, s, longer).accepted == After(cfg, s, run).accepted
    ensures SenderAlive(After(cfg, s, longer), i) == SenderAlive(After(cfg, s, run), i)
  {
    longer := run + [a];
    assert longer[..|longer| - 1] == run && longer[|longer| - 1] == a;
    var mid := After(cfg, s, run);
    assert After(cfg, s, longer) == Step(cfg, mid, a);
    ReactionIsStep(cfg, mid, a, i);
  }

  lemma ReactionIsStep<S, T>(cfg: Config<S, T>, s: State<S, T>, a: Action<T>, i: nat)
    requires Enabled(cfg, s, a) && (a.Work? || IsCommand(a)) && a.i == i
    requires var pc := s.workers[i].pc; a.Work? ==> !pc.Receive? && !pc.Sending? && !pc.InHand?
    ensures var s' := Step(cfg, s, a);
            && Shape(cfg, s') && s'.workers[i] == Reaction(cfg.stages[i], s.workers[i], a)
            && s'.queues == s.queues && s'.accepted == s.accepted && SenderAlive(s', i) == SenderAlive(s, i)
  {
  }

  /** Extends a run by any step of worker `i`. */
  lemma ExtendWork<S, T>(cfg: Config<S, T>, s: State<S, T>, run: seq<Action<T>>, i: nat)
    returns (longer: seq<Action<T>>)
    requires Shape(cfg, s) && IsRun(cfg, s, run) && Enabled(cfg, After(cfg, s, run), Work(i))
    ensures longer == run + [Work(i)] && IsRun(cfg, s, longer) && Shape(cfg, After(cfg, s, longer))
    ensures After(cfg, s, longer).workers[i] == Moved(cfg, After(cfg, s, run), i)
  {
    longer := run + [Work(i)];
    assert longer[..|longer| - 1] == run;
  }

  // ---------- Shutdown ----------

  lemma FlagAfterStore(f: C.Flags, c: C.Command)
    ensures C.Apply(f, C.StoreCommand(c)).shutdown == f.shutdown
    ensures C.Apply(f, C.StoreFlag(c)).shutdown == (f.shutdown || c.Shutdown?)
  {
  }

  lemma FlagAfterStep<S, T>(cfg: Config<S, T>, s: State<S, T>, a: Action<T>, i: nat)
    requires Enabled(cfg, s, a) && i < |s.workers|
    ensures Step(cfg, s, a).workers[i].flags.shutdown <==>
            s.workers[i].flags.shutdown || a == FinishCommand(i, C.Command.Shutdown)
  {
    var w := s.workers[i];
    match a
    case Work(_) => MovedFlags(cfg, s, i);
    case BeginCommand(j, c) =>
      FlagAfterStore(w.flags, c);
      assert Step(cfg, s, a).workers[i] == if j == i then Begun(w, c) else w;
    case FinishCommand(j, c) =>
      FlagAfterStore(w.flags, c);
      assert Step(cfg, s, a).workers[i] == if j == i then Finished(w, c) else w;
    case _ => assert Step(cfg, s, a).workers[i] == w;
  }

  /** The flag is up exactly when some shutdown request has been completed, whatever else was commanded. */
  lemma {:induction false} ShutdownFlagIff<S, T>(cfg: Config<S, T>, s: State<S, T>, run: seq<Action<T>>, i: nat)
    requires Shape(cfg, s) && IsRun(cfg, s, run) && i < |s.workers|
    ensures Shape(cfg, After(cfg, s, run))
    ensures After(cfg, s, run).workers[i].flags.shutdown <==>
            s.workers[i].flags.shutdown || FinishCommand(i, C.Command.Shutdown) in run
  {
    if run != [] {
      var before, a := run[..|run| - 1], run[|run| - 1];
      ShutdownFlagIff(cfg, s, before, i);
      StepKeepsShape(cfg, After(cfg, s, before), a);
      FlagAfterStep(cfg, After(cfg, s, before), a, i);
      assert run == before + [a];
    }
  }

  /** How often the stage has been called. */
  function Calls<S, T>(w: Worker<S, T>): nat {
    |Processed(w)|
  }

  /** Positions from which the stage is called once more before the flags are looked at again. */
  predicate MayCall<T>(pc: Pc<T>) {
    pc.CheckPaused? || pc.CheckCommand? || pc.Resetting? || pc.StoringRun? || pc.ClearingPaused? ||
    pc.Receive? || pc.Noting? || pc.InHand?
  }

  lemma MovedCalls<S, T>(cfg: Config<S, T>, s: State<S, T>, i: nat)
    requires Shape(cfg, s) && i < |s.workers| && HoldsLast(s.workers[i]) && s.workers[i].flags.shutdown
    ensures HoldsLast(Moved(cfg, s, i)) && Moved(cfg, s, i).flags.shutdown
    ensures Calls(Moved(cfg, s, i)) + One(MayCall(Moved(cfg, s, i).pc))
            <= Calls(s.workers[i]) + One(MayCall(s.workers[i].pc))
    ensures Calls(s.workers[i]) <= Calls(Moved(cfg, s, i))
  {
  }

  lemma StepAfterShutdown<S, T>(cfg: Config<S, T>, s: State<S, T>, a: Action<T>, i: nat)
    requires Enabled(cfg, s, a) && i < |s.workers| && HoldsLast(s.workers[i]) && s.workers[i].flags.shutdown
    ensures var w, w' := s.workers[i], Step(cfg, s, a).workers[i];
            && HoldsLast(w') && w'.flags.shutdown
            && Calls(w) <= Calls(w')
            && Calls(w') + One(MayCall(w'.pc)) <= Calls(w) + One(MayCall(w.pc))
  {
    if a == Work(i) {
      MovedCalls(cfg, s, i);
    } else {
      OthersLeaveWorker(cfg, s, a, i);
      FlagAfterStep(cfg, s, a, i);
      assert Processed(Step(cfg, s, a).workers[i]) == Processed(s.workers[i]);
    }
  }

  /**
   * A shutdown request cannot be lost: from any state in which the flag is set, whatever
   * commands race with it, the flag stays set, the stage is called at most once more, and not
   * at all if the worker was not already past its check.
   */
  lemma {:induction false} ShutdownIsFinal<S, T>(cfg: Config<S, T>, s: State<S, T>, run: seq<Action<T>>, i: nat)
    requires Shape(cfg, s) && IsRun(cfg, s, run) && i < |s.workers|
    requires HoldsLast(s.workers[i]) && s.workers[i].flags.shutdown
    ensures var s' := After(cfg, s, run);
            && Shape(cfg, s')
            && HoldsLast(s'.workers[i]) && s'.workers[i].flags.shutdown
            && Calls(s.workers[i]) <= Calls(s'.workers[i])
            && Calls(s'.workers[i]) + One(MayCall(s'.workers[i].pc)) <= Calls(s.workers[i]) + One(MayCall(s.workers[i].pc))
  {
    if run != [] {
      var before := run[..|run| - 1];
      ShutdownIsFinal(cfg, s, before, i);
      StepAfterShutdown(cfg, After(cfg, s, before), run[|run| - 1], i);
    }
  }

  /** At most how many steps a worker still makes in its loop once shutdown is requested. */
  function StepsToLeave<T>(pc: Pc<T>): nat {
    match pc
    case CheckPaused => 11
    case CheckCommand => 10
    case Resetting => 9
    case StoringRun => 8
    case ClearingPaused => 7
    case Receive => 6
    case Noting(_) => 5
    case InHand(_) => 4
    case Sending(_) => 3
    case CountOutput => 2
    case CountDropped => 2
    case CountFiltered => 2
    case CheckShutdown => 1
    case Leaving => 0
    case LeftOutput => 0
    case Stopped => 0
  }

  lemma LocalApproachesExit<S, T>(stage: Stage<S, T, T>, w: Worker<S, T>)
    requires w.flags.shutdown && !w.pc.Receive? && !w.pc.Sending? && !w.pc.InHand?
    ensures StepsToLeave(Local(stage, w).pc) < StepsToLeave(w.pc) || HasLeft(w.pc)
  {
  }

  lemma MovedApproachesExit<S, T>(cfg: Config<S, T>, s: State<S, T>, i: nat)
    requires Shape(cfg, s) && i < |s.workers| && s.workers[i].flags.shutdown
    ensures StepsToLeave(Moved(cfg, s, i).pc) < StepsToLeave(s.workers[i].pc) || HasLeft(s.workers[i].pc)
    ensures HasLeft(s.workers[i].pc) ==> HasLeft(Moved(cfg, s, i).pc)
  {
    var w := s.workers[i];
    MovedFlags(cfg, s, i);
    if !w.pc.Receive? && !w.pc.Sending? && !w.pc.InHand? {
      LocalApproachesExit(cfg.stages[i], w);
    }
  }

  /** The steps of worker `i` in a run. */
  function StepsOf<T>(run: seq<Action<T>>, i: nat): nat {
    if run == [] then 0
    else StepsOf(run[..|run| - 1], i) + match run[|run| - 1] case Work(j) => One(j == i) case _ => 0
  }

  /** No worker waits for anyone: after eleven steps of its own it has left its loop. */
  lemma {:induction false} ShutdownIsPrompt<S, T>(cfg: Config<S, T>, s: State<S, T>, run: seq<Action<T>>, i: nat)
    requires Shape(cfg, s) && IsRun(cfg, s, run) && i < |s.workers|
    requires HoldsLast(s.workers[i]) && s.workers[i].flags.shutdown
    ensures Shape(cfg, After(cfg, s, run))
    ensures HasLeft(After(cfg, s, run).workers[i].pc) ||
            StepsOf(run, i) + StepsToLeave(After(cfg, s, run).workers[i].pc) <= StepsToLeave(s.workers[i].pc)
    ensures StepsOf(run, i) >= 11 ==> HasLeft(After(cfg, s, run).workers[i].pc)
  {
    if run != [] {
      var before, a := run[..|run| - 1], run[|run| - 1];
      ShutdownIsPrompt(cfg, s, before, i);
      ShutdownIsFinal(cfg, s, before, i);
      var mid := After(cfg, s, before);
      StepKeepsShape(cfg, mid, a);
      if a == Work(i) {
        MovedApproachesExit(cfg, mid, i);
      } else {
        OthersLeaveWorker(cfg, mid, a, i);
      }
    }
  }

  lemma StepLeavesBehind<S, T>(cfg: Config<S, T>, s: State<S, T>, a: Action<T>, i: nat)
    requires Enabled(cfg, s, a) && i < |s.workers| && HasLeft(s.workers[i].pc)
    ensures HasLeft(Step(cfg, s, a).workers[i].pc)
    ensures Step(cfg, s, a).workers[i].received == s.workers[i].received
    ensures s.queues[i] <= Step(cfg, s, a).queues[i]
  {
    match a
    case Work(j) =>
      MovedFlags(cfg, s, i);
      MovedHistories(cfg, s, i);
      QueuedAt(cfg, s, j, i);
    case _ => {}
  }

  /**
   * What a worker has not received when it leaves its loop is abandoned: it receives nothing
   * more, and everything queued for it stays queued in every continuation.
   */
  lemma {:induction false} LeftBehindStays<S, T>(cfg: Config<S, T>, s: State<S, T>, run: seq<Action<T>>, i: nat)
    requires Shape(cfg, s) && IsRun(cfg, s, run) && i < |s.workers| && HasLeft(s.workers[i].pc)
    ensures var s' := After(cfg, s, run);
            && Shape(cfg, s')
            && HasLeft(s'.workers[i].pc)
            && s'.workers[i].received == s.workers[i].received
            && s.queues[i] <= s'.queues[i]
  {
    if run != [] {
      var before, a := run[..|run| - 1], run[|run| - 1];
      LeftBehindStays(cfg, s, before, i);
      StepKeepsShape(cfg, After(cfg, s, before), a);
      StepLeavesBehind(cfg, After(cfg, s, before), a, i);
    }
  }

  /** Positions from which the worker receives before it looks at the shutdown flag again. */
  predicate MayReceive<T>(pc: Pc<T>) {
    pc.CheckPaused? || pc.CheckCommand? || pc.Resetting? || pc.StoringRun? || pc.ClearingPaused? || pc.Receive?
  }

  predicate HasReceivedMore<S, T>(s: State<S, T>, later: State<S, T>, i: nat)
    requires i < |s.workers|
  {
    i < |later.workers| && |later.workers[i].received| > |s.workers[i].received|
  }

  ghost predicate CanReceive<S(!new), T(!new)>(cfg: Config<S, T>, s: State<S, T>, i: nat)
    requires Shape(cfg, s) && i < |s.workers|
  {
    exists run: seq<Action<T>> :: IsRun(cfg, s, run) && HasReceivedMore(s, After(cfg, s, run), i)
  }

  lemma MovedReceivesNothing<S, T>(cfg: Config<S, T>, s: State<S, T>, i: nat)
    requires Shape(cfg, s) && i < |s.workers| && s.workers[i].flags.shutdown && !MayReceive(s.workers[i].pc)
    ensures Moved(cfg, s, i).flags.shutdown && !MayReceive(Moved(cfg, s, i).pc)
    ensures Moved(cfg, s, i).received == s.workers[i].received
  {
  }

  lemma {:induction false} NothingMoreIsReceived<S, T>(cfg: Config<S, T>, s: State<S, T>, run: seq<Action<T>>, i: nat)
    requires Shape(cfg, s) && IsRun(cfg, s, run) && i < |s.workers|
    requires s.workers[i].flags.shutdown && !MayReceive(s.workers[i].pc)
    ensures Shape(cfg, After(cfg, s, run))
    ensures var w := After(cfg, s, run).workers[i];
            w.flags.shutdown && !MayReceive(w.pc) && w.received == s.workers[i].received
  {
    if run != [] {
      var before, a := run[..|run| - 1], run[|run| - 1];
      NothingMoreIsReceived(cfg, s, before, i);
      var mid := After(cfg, s, before);
      StepKeepsShape(cfg, mid, a);
      match a
      case Work(_) => MovedReceivesNothing(cfg, mid, i);
      case _ => FlagAfterStep(cfg, mid, a, i);
    }
  }

  lemma OneStepTowardsReceive<S, T>(stage: Stage<S, T, T>, w: Worker<S, T>)
    requires MayReceive(w.pc) && !w.pc.Receive? && !w.flags.paused
    ensures var w' := Local(stage, w);
            && MayReceive(w'.pc) && !w'.flags.paused && w'.received == w.received
            && StepsToLeave(w'.pc) < StepsToLeave(w.pc)
  {
  }

  lemma ReceivesNow<S, T>(cfg: Config<S, T>, s: State<S, T>, i: nat)
    requires Shape(cfg, s) && i < |s.workers| && s.workers[i].pc.Receive? && s.queues[i] != []
    ensures Moved(cfg, s, i).received == s.workers[i].received + [s.queues[i][0]]
  {
  }

  /** A worker that is not paused and past its check goes on to receive what is queued. */
  lemma {:induction false} GoesOnToReceive<S, T>(cfg: Config<S, T>, s: State<S, T>, run: seq<Action<T>>, i: nat)
    returns (longer: seq<Action<T>>)
    requires Shape(cfg, s) && IsRun(cfg, s, run) && Shape(cfg, After(cfg, s, run)) && i < |s.workers|
    requires var s' := After(cfg, s, run);
             MayReceive(s'.workers[i].pc) && !s'.workers[i].flags.paused && s'.queues[i] != []
    ensures IsRun(cfg, s, longer) && HasReceivedMore(After(cfg, s, run), After(cfg, s, longer), i)
    decreases StepsToLeave(After(cfg, s, run).workers[i].pc)
  {
    if After(cfg, s, run).workers[i].pc.Receive? {
      ReceivesNow(cfg, After(cfg, s, run), i);
      longer := ExtendWork(cfg, s, run, i);
    } else {
      OneStepTowardsReceive(cfg.stages[i], After(cfg, s, run).workers[i]);
      longer := Extend(cfg, s, run, Work(i), i);
      longer := GoesOnToReceive(cfg, s, longer, i);
    }
  }

  /**
   * Once shutdown is requested, what is queued for a worker can still be received if and only if
   * the worker has passed its check and not come to receiving yet; otherwise it is abandoned.
   */
  lemma QueuedIsReceivedIff<S(!new), T(!new)>(cfg: Config<S, T>, s: State<S, T>, i: nat)
    requires Shape(cfg, s) && i < |s.workers| && s.workers[i].flags.shutdown && s.queues[i] != []
    ensures CanReceive(cfg, s, i) <==> MayReceive(s.workers[i].pc)
  {
    if MayReceive(s.workers[i].pc) {
      var run: seq<Action<T>> := [];
      if s.workers[i].flags.paused {
        run := Extend(cfg, s, run, BeginCommand(i, C.Command.Resume), i);
        run := Extend(cfg, s, run, FinishCommand(i, C.Command.Resume), i);
      }
      run := GoesOnToReceive(cfg, s, run, i);
    } else if CanReceive(cfg, s, i) {
      var run: seq<Action<T>> :| IsRun(cfg, s, run) && HasReceivedMore(s, After(cfg, s, run), i);
      NothingMoreIsReceived(cfg, s, run, i);
    }
  }

  lemma FirstOffer<S, T>(cfg: Config<S, T>, x: T) returns (run: seq<Action<T>>)
    requires cfg.stages != [] && cfg.capacity > 0
    ensures run == [Offer(x)] && IsRun(cfg, Init(cfg), run) && Shape(cfg, After(cfg, Init(cfg), run))
    ensures var s := After(cfg, Init(cfg), run);
            s.accepted == [x] && s.queues[0] == [x] && s.workers[0] == InitWorker(cfg.stages[0])
  {
    run := [Offer(x)];
    assert run[..0] == [] && IsRun(cfg, Init(cfg), run[..0]) && After(cfg, Init(cfg), run[..0]) == Init(cfg);
  }

  /** From the start: an accepted item that a shutdown request makes sure is never received. */
  lemma ShutdownAbandons<S(!new), T(!new)>(cfg: Config<S, T>, x: T) returns (run: seq<Action<T>>)
    requires cfg.stages != [] && cfg.capacity > 0
    ensures run == [Offer(x), BeginCommand(0, C.Command.Shutdown), FinishCommand(0, C.Command.Shutdown), Work(0)]
    ensures IsRun(cfg, Init(cfg), run) && Shape(cfg, After(cfg, Init(cfg), run))
    ensures var s := After(cfg, Init(cfg), run);
            && s.accepted == [x] && s.queues[0] == [x] && s.workers[0].received == []
            && s.workers[0].pc.Leaving? && !CanReceive(cfg, s, 0)
  {
    run := OfferThenShutdown(cfg, x);
    QueuedIsReceivedIff(cfg, After(cfg, Init(cfg), run), 0);
  }

  lemma OfferThenShutdown<S, T>(cfg: Config<S, T>, x: T) returns (run: seq<Action<T>>)
    requires cfg.stages != [] && cfg.capacity > 0
    ensures run == [Offer(x), BeginCommand(0, C.Command.Shutdown), FinishCommand(0, C.Command.Shutdown), Work(0)]
    ensures IsRun(cfg, Init(cfg), run) && Shape(cfg, After(cfg, Init(cfg), run))
    ensures var s := After(cfg, Init(cfg), run);
            && s.accepted == [x] && s.queues[0] == [x] && s.workers[0].received == []
            && s.workers[0].pc.Leaving? && s.workers[0].flags.shutdown
  {
    run := FirstOffer(cfg, x);
    run := RequestAndLeave(cfg, Init(cfg), run, 0);
  }

  /** A worker at the top of its loop leaves it in one step once shutdown is requested. */
  lemma RequestAndLeave<S, T>(cfg: Config<S, T>, s: State<S, T>, run: seq<Action<T>>, i: nat)
    returns (longer: seq<Action<T>>)
    requires Shape(cfg, s) && IsRun(cfg, s, run) && Shape(cfg, After(cfg, s, run)) && i < |s.workers|
    requires After(cfg, s, run).workers[i].pc.CheckShutdown?
    ensures longer == run + [BeginCommand(i, C.Command.Shutdown)] + [FinishCommand(i, C.Command.Shutdown)] + [Work(i)]
    ensures IsRun(cfg, s, longer) && Shape(cfg, After(cfg, s, longer))
    ensures var before, after := After(cfg, s, run), After(cfg, s, longer);
            && after.accepted == before.accepted && after.queues == before.queues
            && after.workers[i].received == before.workers[i].received
            && after.workers[i].pc.Leaving? && after.workers[i].flags.shutdown
  {
    longer := Extend(cfg, s, run, BeginCommand(i, C.Command.Shutdown), i);
    longer := Extend(cfg, s, longer, FinishCommand(i, C.Command.Shutdown), i);
    longer := Extend(cfg, s, longer, Work(i), i);
  }

  // ---------- Pause ----------

  /** Positions from which a reset handler will clear the pause flag without looking at it. */
  predicate InResetWindow<S, T>(w: Worker<S, T>) {
    w.pc.Resetting? || w.pc.StoringRun? || w.pc.ClearingPaused? ||
    (w.pc.CheckCommand? && w.flags.command.Reset?)
  }

  /** No controller does anything to worker `i`. */
  predicate NobodyCommands<T>(run: seq<Action<T>>, i: nat) {
    forall k :: 0 <= k < |run| && IsCommand(run[k]) ==> run[k].i != i
  }

  lemma MovedStaysPaused<S, T>(cfg: Config<S, T>, s: State<S, T>, i: nat)
    requires Shape(cfg, s) && i < |s.workers| && s.workers[i].flags.paused && !InResetWindow(s.workers[i])
    ensures Moved(cfg, s, i).flags.paused && !InResetWindow(Moved(cfg, s, i))
  {
  }

  lemma {:induction false} PauseStays<S, T>(cfg: Config<S, T>, s: State<S, T>, run: seq<Action<T>>, i: nat)
    requires Shape(cfg, s) && IsRun(cfg, s, run) && i < |s.workers|
    requires s.workers[i].flags.paused && !InResetWindow(s.workers[i]) && NobodyCommands(run, i)
    ensures Shape(cfg, After(cfg, s, run))
    ensures After(cfg, s, run).workers[i].flags.paused && !InResetWindow(After(cfg, s, run).workers[i])
  {
    if run != [] {
      var before, a := run[..|run| - 1], run[|run| - 1];
      PauseStays(cfg, s, before, i);
      var mid := After(cfg, s, before);
      StepKeepsShape(cfg, mid, a);
      match a
      case Work(j) => MovedStaysPaused(cfg, mid, i);
      case _ => assert Step(cfg, mid, a).workers[i] == mid.workers[i];
    }
  }

  /** In the window, the worker's own next steps erase the pause. */
  lemma {:induction false} WindowErasesPause<S, T>(cfg: Config<S, T>, s: State<S, T>, run: seq<Action<T>>, i: nat)
    returns (longer: seq<Action<T>>)
    requires Shape(cfg, s) && IsRun(cfg, s, run) && Shape(cfg, After(cfg, s, run)) && i < |s.workers|
    requires InResetWindow(After(cfg, s, run).workers[i]) && NobodyCommands(run, i)
    ensures IsRun(cfg, s, longer) && NobodyCommands(longer, i)
    ensures Unpaused(After(cfg, s, longer), i)
    decreases StepsToLeave(After(cfg, s, run).workers[i].pc)
  {
    var pc := After(cfg, s, run).workers[i].pc;
    longer := Extend(cfg, s, run, Work(i), i);
    if !pc.ClearingPaused? {
      longer := WindowErasesPause(cfg, s, longer, i);
    }
  }

  ghost predicate PauseCanBeLost<S(!new), T(!new)>(cfg: Config<S, T>, s: State<S, T>, i: nat)
    requires Shape(cfg, s) && i < |s.workers|
  {
    exists run: seq<Action<T>> :: IsRun(cfg, s, run) && NobodyCommands(run, i) && Unpaused(After(cfg, s, run), i)
  }

  predicate Unpaused<S, T>(s: State<S, T>, i: nat) {
    i < |s.workers| && !s.workers[i].flags.paused
  }

  /**
   * A pause can be lost although nobody commands anything more, if and only if the worker is
   * between having seen a reset command and clearing the pause flag for it.
   */
  lemma PauseCanBeLostIff<S(!new), T(!new)>(cfg: Config<S, T>, s: State<S, T>, i: nat)
    requires Shape(cfg, s) && i < |s.workers| && s.workers[i].flags.paused
    ensures PauseCanBeLost(cfg, s, i) <==> InResetWindow(s.workers[i])
  {
    if InResetWindow(s.workers[i]) {
      var run := WindowErasesPause(cfg, s, [], i);
    } else if PauseCanBeLost(cfg, s, i) {
      var run: seq<Action<T>> :|
        IsRun(cfg, s, run) && NobodyCommands(run, i) && Unpaused(After(cfg, s, run), i);
      PauseStays(cfg, s, run, i);
    }
  }

  /** A worker at the top of its loop and free to run gets to a reset command in three steps. */
  lemma ResetIsReached<S, T>(cfg: Config<S, T>, s: State<S, T>, run: seq<Action<T>>, i: nat)
    returns (longer: seq<Action<T>>)
    requires Shape(cfg, s) && IsRun(cfg, s, run) && Shape(cfg, After(cfg, s, run)) && i < |s.workers|
    requires var w := After(cfg, s, run).workers[i];
             w.pc.CheckShutdown? && !w.flags.shutdown && !w.flags.paused && w.flags.command.Reset?
    ensures longer == run + [Work(i)] + [Work(i)] + [Work(i)]
    ensures IsRun(cfg, s, longer) && Shape(cfg, After(cfg, s, longer))
    ensures After(cfg, s, longer).workers[i].pc.Resetting?
  {
    longer := Extend(cfg, s, run, Work(i), i);
    longer := Extend(cfg, s, longer, Work(i), i);
    longer := Extend(cfg, s, longer, Work(i), i);
  }

  lemma ResetIsSeen<S, T>(cfg: Config<S, T>, s: State<S, T>, i: nat) returns (run: seq<Action<T>>)
    requires Shape(cfg, s) && i < |s.workers| && s.workers[i].pc.CheckShutdown?
    requires !s.workers[i].flags.shutdown && !s.workers[i].flags.paused
    ensures IsRun(cfg, s, run) && Shape(cfg, After(cfg, s, run)) && After(cfg, s, run).workers[i].pc.Resetting?
  {
    run := Extend(cfg, s, [], BeginCommand(i, C.Command.Reset), i);
    run := Extend(cfg, s, run, FinishCommand(i, C.Command.Reset), i);
    run := ResetIsReached(cfg, s, run, i);
  }

  /**
   * The race: a pause that completes while a reset is being handled leaves the flag set, and
   * yet open to being lost.
   */
  lemma RacingPauseCanBeLost<S(!new), T(!new)>(cfg: Config<S, T>, s: State<S, T>, i: nat)
    returns (reset: seq<Action<T>>, run: seq<Action<T>>)
    requires Shape(cfg, s) && i < |s.workers| && s.workers[i].pc.CheckShutdown?
    requires !s.workers[i].flags.shutdown && !s.workers[i].flags.paused
    ensures run == reset + [BeginCommand(i, C.Command.Pause)] + [FinishCommand(i, C.Command.Pause)]
    ensures IsRun(cfg, s, run) && Shape(cfg, After(cfg, s, run)) && After(cfg, s, run).workers[i].flags.paused
    ensures PauseCanBeLost(cfg, After(cfg, s, run), i)
  {
    reset := ResetIsSeen(cfg, s, i);
    run := Extend(cfg, s, reset, BeginCommand(i, C.Command.Pause), i);
    run := Extend(cfg, s, run, FinishCommand(i, C.Command.Pause), i);
    PauseCanBeLostIff(cfg, After(cfg, s, run), i);
  }
}
