/** When a reset that was commanded is still carried out, and when it is lost. */
module NetworkReset {
  import opened Network
  import opened NetworkControl

  /** Nobody commands worker `i` to reset again. */
  predicate NoFurtherReset<T>(run: seq<Action<T>>, i: nat) {
    forall k :: 0 <= k < |run| ==> run[k] != BeginCommand(i, C.Command.Reset)
  }

  predicate HasReset<S, T>(s: State<S, T>, later: State<S, T>, i: nat)
    requires i < |s.workers|
  {
    i < |later.workers| && later.workers[i].resets > s.workers[i].resets
  }

  ghost predicate CanReset<S(!new), T(!new)>(cfg: Config<S, T>, s: State<S, T>, i: nat)
    requires Shape(cfg, s) && i < |s.workers|
  {
    exists run: seq<Action<T>> :: IsRun(cfg, s, run) && NoFurtherReset(run, i) && HasReset(s, After(cfg, s, run), i)
  }

  // ---------- The condition ----------

  /** The pause flag is down, or a command already begun will take it down. */
  predicate CanRun<S, T>(w: Worker<S, T>) {
    !w.flags.paused || C.Command.Resume in w.pending || C.Command.Run in w.pending
  }

  /** Receiving from queue `i` does not end the loop. */
  predicate MayGoOn<S, T>(s: State<S, T>, i: nat)
    requires i < |s.workers| && i < |s.queues|
  {
    s.queues[i] != [] || SenderAlive(s, i)
  }

  /** On its way from an item back to the top of the loop, or there. */
  predicate IsReturning<T>(pc: Pc<T>) {
    pc.CheckShutdown? || pc.Noting? || pc.InHand? || pc.Sending? ||
    pc.CountOutput? || pc.CountDropped? || pc.CountFiltered?
  }

  /**
   * The worker has taken the reset up, or the command still says so and the worker gets to read
   * it: nothing stops it before the check, and its own handling of an earlier reset is past the
   * point where it overwrites the command.
   */
  predicate ResetIsComing<S, T>(s: State<S, T>, i: nat)
    requires i < |s.workers| && i < |s.queues|
  {
    var w := s.workers[i];
    w.pc.Resetting? ||
    (w.flags.command.Reset? &&
     (w.pc.CheckCommand? ||
      (w.pc.CheckPaused? && CanRun(w)) ||
      (!w.flags.shutdown &&
       ((IsReturning(w.pc) && CanRun(w)) ||
        (w.pc.Receive? && CanRun(w) && MayGoOn(s, i)) ||
        (w.pc.ClearingPaused? && MayGoOn(s, i))))))
  }

  // ---------- Otherwise it is lost ----------

  lemma MovedLosesReset<S, T>(cfg: Config<S, T>, s: State<S, T>, i: nat)
    requires Enabled(cfg, s, Work(i)) && !ResetIsComing(s, i)
    ensures !ResetIsComing(Step(cfg, s, Work(i)), i)
    ensures Step(cfg, s, Work(i)).workers[i].resets == s.workers[i].resets
  {
  }

  /** What others do leaves the worker alone, and does not revive a dead channel. */
  lemma OtherLosesReset<S, T>(cfg: Config<S, T>, s: State<S, T>, a: Action<T>, i: nat)
    requires Enabled(cfg, s, a) && i < |s.workers| && !ResetIsComing(s, i)
    requires a != Work(i) && !(IsCommand(a) && a.i == i)
    ensures Step(cfg, s, a).workers[i] == s.workers[i] && !ResetIsComing(Step(cfg, s, a), i)
  {
    if !MayGoOn(s, i) {
      DeadLinkStays(cfg, s, a, i);
    }
  }

  lemma CommandLosesReset<S, T>(cfg: Config<S, T>, s: State<S, T>, a: Action<T>, i: nat)
    requires Enabled(cfg, s, a) && IsCommand(a) && a.i == i && !ResetIsComing(s, i)
    requires a != BeginCommand(i, C.Command.Reset)
    ensures !ResetIsComing(Step(cfg, s, a), i) && Step(cfg, s, a).workers[i].resets == s.workers[i].resets
  {
    assert Step(cfg, s, a).queues == s.queues && SenderAlive(Step(cfg, s, a), i) == SenderAlive(s, i);
  }

  lemma {:induction false} ResetStaysLost<S, T>(cfg: Config<S, T>, s: State<S, T>, run: seq<Action<T>>, i: nat)
    requires Shape(cfg, s) && IsRun(cfg, s, run) && i < |s.workers| && !ResetIsComing(s, i)
    requires NoFurtherReset(run, i)
    ensures Shape(cfg, After(cfg, s, run)) && !ResetIsComing(After(cfg, s, run), i)
    ensures After(cfg, s, run).workers[i].resets == s.workers[i].resets
  {
    if run != [] {
      var before, a := run[..|run| - 1], run[|run| - 1];
      ResetStaysLost(cfg, s, before, i);
      var mid := After(cfg, s, before);
      StepKeepsShape(cfg, mid, a);
      if a == Work(i) {
        MovedLosesReset(cfg, mid, i);
      } else if IsCommand(a) && a.i == i {
        CommandLosesReset(cfg, mid, a, i);
      } else {
        OtherLosesReset(cfg, mid, a, i);
      }
    }
  }

  // ---------- Under the condition it can happen ----------

  /** The steps to carrying out the reset. */
  function StepsToReset<T>(pc: Pc<T>): nat {
    match pc
    case ClearingPaused => 9
    case Receive => 8
    case Noting(_) => 7
    case InHand(_) => 6
    case Sending(_) => 5
    case CountOutput => 4
    case CountDropped => 4
    case CountFiltered => 4
    case CheckShutdown => 3
    case CheckPaused => 2
    case CheckCommand => 1
    case _ => 0
  }

  /** Past the check for a pause, or about to clear the flag, or not paused. */
  predicate IsUnhindered<S, T>(w: Worker<S, T>) {
    !w.flags.paused || w.pc.CheckCommand? || w.pc.Resetting? || w.pc.ClearingPaused?
  }

  lemma OneStepTowardsReset<S, T>(cfg: Config<S, T>, s: State<S, T>, i: nat)
    requires Enabled(cfg, s, Work(i)) && ResetIsComing(s, i) && IsUnhindered(s.workers[i])
    requires !s.workers[i].pc.Resetting?
    ensures ResetIsComing(Step(cfg, s, Work(i)), i) && IsUnhindered(Moved(cfg, s, i))
    ensures StepsToReset(Moved(cfg, s, i).pc) < StepsToReset(s.workers[i].pc)
    ensures Moved(cfg, s, i).resets == s.workers[i].resets
  {
  }

  lemma {:induction false} GoesOnToReset<S, T>(cfg: Config<S, T>, s: State<S, T>, run: seq<Action<T>>, i: nat)
    returns (longer: seq<Action<T>>)
    requires Shape(cfg, s) && IsRun(cfg, s, run) && Shape(cfg, After(cfg, s, run)) && i < |s.workers|
    requires var s' := After(cfg, s, run); ResetIsComing(s', i) && IsUnhindered(s'.workers[i])
    requires NoFurtherReset(run, i)
    ensures IsRun(cfg, s, longer) && NoFurtherReset(longer, i)
    ensures HasReset(After(cfg, s, run), After(cfg, s, longer), i)
    decreases StepsToReset(After(cfg, s, run).workers[i].pc)
  {
    var s' := After(cfg, s, run);
    longer := ExtendWork(cfg, s, run, i);
    if !s'.workers[i].pc.Resetting? {
      OneStepTowardsReset(cfg, s', i);
      longer := GoesOnToReset(cfg, s, longer, i);
    }
  }

  /** Completing a resume or run takes the pause flag down and keeps the reset coming. */
  lemma FinishUnhinders<S, T>(cfg: Config<S, T>, s: State<S, T>, i: nat, c: C.Command) returns (run: seq<Action<T>>)
    requires Shape(cfg, s) && i < |s.workers| && ResetIsComing(s, i)
    requires c in s.workers[i].pending && (c.Resume? || c.Run?)
    ensures run == [FinishCommand(i, c)] && IsRun(cfg, s, run) && Shape(cfg, After(cfg, s, run))
    ensures ResetIsComing(After(cfg, s, run), i) && IsUnhindered(After(cfg, s, run).workers[i])
    ensures After(cfg, s, run).workers[i].resets == s.workers[i].resets
  {
    run := Extend(cfg, s, [], FinishCommand(i, c), i);
    var w, w' := s.workers[i], After(cfg, s, run).workers[i];
    assert w' == Finished(w, c) && !w'.flags.paused && w'.pc == w.pc;
    assert w'.flags.command == w.flags.command && w'.flags.shutdown == w.flags.shutdown;
  }

  /** Completes the command that lets a paused worker run. */
  lemma Unhinder<S, T>(cfg: Config<S, T>, s: State<S, T>, i: nat) returns (run: seq<Action<T>>)
    requires Shape(cfg, s) && i < |s.workers| && ResetIsComing(s, i)
    ensures IsRun(cfg, s, run) && Shape(cfg, After(cfg, s, run)) && NoFurtherReset(run, i)
    ensures ResetIsComing(After(cfg, s, run), i) && IsUnhindered(After(cfg, s, run).workers[i])
    ensures After(cfg, s, run).workers[i].resets == s.workers[i].resets
  {
    if IsUnhindered(s.workers[i]) {
      run := [];
    } else if C.Command.Resume in s.workers[i].pending {
      run := FinishUnhinders(cfg, s, i, C.Command.Resume);
    } else {
      run := FinishUnhinders(cfg, s, i, C.Command.Run);
    }
  }

  /**
   * Without another reset command, whatever else is commanded, worker `i` still resets in some
   * continuation if and only if it has taken a reset up or is going to read one.
   */
  lemma ResetCanHappenIff<S(!new), T(!new)>(cfg: Config<S, T>, s: State<S, T>, i: nat)
    requires Shape(cfg, s) && i < |s.workers|
    ensures CanReset(cfg, s, i) <==> ResetIsComing(s, i)
  {
    if ResetIsComing(s, i) {
      var run := Unhinder(cfg, s, i);
      run := GoesOnToReset(cfg, s, run, i);
    } else if CanReset(cfg, s, i) {
      var run: seq<Action<T>> :|
        IsRun(cfg, s, run) && NoFurtherReset(run, i) && HasReset(s, After(cfg, s, run), i);
      ResetStaysLost(cfg, s, run, i);
    }
  }

  // ---------- What a reset does ----------

  lemma EraStays<S, T>(cfg: Config<S, T>, s: State<S, T>, a: Action<T>, i: nat)
    requires Enabled(cfg, s, a) && i < |s.workers|
    ensures Shape(cfg, Step(cfg, s, a))
    ensures var w, w' := s.workers[i], Step(cfg, s, a).workers[i];
            (w'.resets == w.resets && w'.era == w.era) || w'.resets > w.resets
  {
    if a != Work(i) {
      OthersLeaveWorker(cfg, s, a, i);
    }
  }

  lemma {:induction false} EraOfRun<S, T>(cfg: Config<S, T>, s: State<S, T>, run: seq<Action<T>>, i: nat)
    requires Inv(cfg, s) && IsRun(cfg, s, run) && i < |s.workers|
    ensures Inv(cfg, After(cfg, s, run))
    ensures var w, w' := s.workers[i], After(cfg, s, run).workers[i];
            w'.resets >= w.resets && (w'.resets == w.resets ==> w'.era == w.era)
  {
    if run != [] {
      var before, a := run[..|run| - 1], run[|run| - 1];
      EraOfRun(cfg, s, before, i);
      EraStays(cfg, After(cfg, s, before), a, i);
      StepKeepsInv(cfg, After(cfg, s, before), a);
    }
  }

  /**
   * From a reset on, until the next one and whatever else happens, a worker works as if it had
   * started with the state that resetting its own gave: state and results are those of that run
   * over what it was given since, and its counters count from there.
   */
  lemma ResetStartsAnew<S, T>(cfg: Config<S, T>, s: State<S, T>, i: nat, run: seq<Action<T>>)
    requires Inv(cfg, s) && Enabled(cfg, s, Work(i)) && s.workers[i].pc.Resetting?
    requires IsRun(cfg, Step(cfg, s, Work(i)), run)
    ensures Shape(cfg, After(cfg, Step(cfg, s, Work(i)), run))
    ensures var stage, w := cfg.stages[i], s.workers[i];
            var w' := After(cfg, Step(cfg, s, Work(i)), run).workers[i];
            w'.resets == w.resets + 1 ==>
              && |w.received| <= |Processed(w')| && |w.results| <= |w'.results| && |w.sent| <= |w'.sent|
              && (w'.stage, w'.results[|w.results|..])
                 == Stages.Run(stage, stage.reset(w.stage), Processed(w')[|w.received|..])
              && (w'.failed == w.failed ==> w'.results[|w.results|..] == w'.sent[|w.sent|..] + OnTheWay(w'))
              && w'.metrics.input + One(w'.pc.Noting?) == |w'.received| - |w.received|
              && w'.metrics.output + One(w'.pc.CountOutput?) == |w'.sent| - |w.sent|
              && w'.metrics.dropped + One(w'.pc.CountDropped?) == w'.failed - w.failed
  {
    var s' := Step(cfg, s, Work(i));
    StepKeepsInv(cfg, s, Work(i));
    EraOfRun(cfg, s', run, i);
    var w' := After(cfg, s', run).workers[i];
    assert EraAgrees(cfg.stages[i], w');
  }

  // ---------- Losing a reset ----------

  lemma CommandReset<S, T>(cfg: Config<S, T>, s: State<S, T>, i: nat) returns (run: seq<Action<T>>)
    requires Shape(cfg, s) && i < |s.workers|
    ensures run == [BeginCommand(i, C.Command.Reset), FinishCommand(i, C.Command.Reset)]
    ensures IsRun(cfg, s, run) && Shape(cfg, After(cfg, s, run))
    ensures var w, w' := s.workers[i], After(cfg, s, run).workers[i];
            && w'.flags == w.flags.(command := C.Command.Reset) && w'.pc == w.pc && w'.pending == w.pending
  {
    run := Extend(cfg, s, [], BeginCommand(i, C.Command.Reset), i);
    run := Extend(cfg, s, run, FinishCommand(i, C.Command.Reset), i);
  }

  /**
   * So a reset commanded while the worker is paused, with no resume under way, is always lost:
   * the command that lets the worker run again overwrites it.
   */
  lemma ResetWhilePausedIsLost<S(!new), T(!new)>(cfg: Config<S, T>, s: State<S, T>, i: nat)
    returns (run: seq<Action<T>>)
    requires Shape(cfg, s) && i < |s.workers| && s.workers[i].flags.paused && s.workers[i].pending == multiset{}
    requires s.workers[i].pc.CheckShutdown? || s.workers[i].pc.CheckPaused?
    ensures run == [BeginCommand(i, C.Command.Reset), FinishCommand(i, C.Command.Reset)]
    ensures IsRun(cfg, s, run) && Shape(cfg, After(cfg, s, run))
    ensures After(cfg, s, run).workers[i].flags.command.Reset? && !CanReset(cfg, After(cfg, s, run), i)
  {
    run := CommandReset(cfg, s, i);
    ResetCanHappenIff(cfg, After(cfg, s, run), i);
  }
}
