/** The worker loop as the source writes it, with what other threads decide made a parameter. */
module Worker {
  import opened Wrappers
  import opened Stages
  import opened Channel
  import opened Network

  /** What one pass through the loop observes of the flags, the input and the output channel. */
  datatype Pass<T> = Pass(shutdown: bool, paused: bool, reset: bool, received: Result<T, RecvError>, accepted: bool)

  datatype Loop<S, T> = Loop(stage: S, metrics: Metrics, sent: seq<T>, running: bool)

  function NoCounts(): Metrics {
    Metrics(0, 0, 0, 0)
  }

  function Start<S, T>(stage: Stage<S, T, T>, m: Metrics): Loop<S, T> {
    Loop(stage.initial, m, [], true)
  }

  function HandleReset<S, T>(stage: Stage<S, T, T>, l: Loop<S, T>, reset: bool): Loop<S, T> {
    if reset then l.(stage := stage.reset(l.stage), metrics := NoCounts()) else l
  }

  function HandleItem<S, T>(stage: Stage<S, T, T>, l: Loop<S, T>, x: T, accepted: bool): Loop<S, T> {
    var (s', result) := stage.process(l.stage, x);
    var m := l.metrics.(input := l.metrics.input + 1);
    if result.None? then l.(stage := s', metrics := m.(filtered := m.filtered + 1))
    else if accepted then l.(stage := s', metrics := m.(output := m.output + 1), sent := l.sent + [result.value])
    else l.(stage := s', metrics := m.(dropped := m.dropped + 1))
  }

  function OnePass<S, T>(stage: Stage<S, T, T>, l: Loop<S, T>, p: Pass<T>): Loop<S, T> {
    if !l.running then l
    else if p.shutdown then l.(running := false)
    else if p.paused then l
    else
      var ready := HandleReset(stage, l, p.reset);
      match p.received
      case Ok(x) => HandleItem(stage, ready, x, p.accepted)
      case Err(Empty) => ready
      case Err(SenderGone) => ready.(running := false)
  }

  function Passes<S, T>(stage: Stage<S, T, T>, m: Metrics, passes: seq<Pass<T>>): Loop<S, T> {
    if passes == [] then Start(stage, m)
    else OnePass(stage, Passes(stage, m, passes[..|passes| - 1]), passes[|passes| - 1])
  }

  // ---------- What the loop computes ----------

  /** A pass that gets as far as receiving an item. */
  predicate Receives<T>(p: Pass<T>) {
    !p.shutdown && !p.paused && p.received.Ok?
  }

  /** A pass that leaves the loop. */
  predicate Leaves<T>(p: Pass<T>) {
    p.shutdown || (!p.paused && p.received == Err(SenderGone))
  }

  /** The items the loop takes, up to the first pass that leaves it. */
  function Items<T>(passes: seq<Pass<T>>): seq<T> {
    if passes == [] then []
    else
      var before, p := passes[..|passes| - 1], passes[|passes| - 1];
      if Receives(p) && (forall i :: 0 <= i < |before| ==> !Leaves(before[i])) then Items(before) + [p.received.value]
      else Items(before)
  }

  lemma {:induction false} RunsUntilItLeaves<S, T>(stage: Stage<S, T, T>, m: Metrics, passes: seq<Pass<T>>)
    ensures Passes(stage, m, passes).running <==> forall i :: 0 <= i < |passes| ==> !Leaves(passes[i])
  {
    if passes != [] {
      RunsUntilItLeaves(stage, m, passes[..|passes| - 1]);
    }
  }

  predicate AllAccepted<T>(passes: seq<Pass<T>>) {
    forall i :: 0 <= i < |passes| ==> passes[i].accepted
  }

  /**
   * The loop's state, counters and, if `whole`, what it sent after the first `sent` values are
   * those of running its stage from the state `start`.
   */
  ghost predicate HasRun<S, T>(stage: Stage<S, T, T>, start: S, items: seq<T>, l: Loop<S, T>, sent: nat, whole: bool) {
    var (s, outputs) := Run(stage, start, items);
    && l.stage == s
    && l.metrics.input == |items|
    && l.metrics.filtered == |items| - |outputs|
    && l.metrics.output + l.metrics.dropped == |outputs|
    && sent <= |l.sent| && l.metrics.output == |l.sent| - sent
    && (whole ==> l.sent[sent..] == outputs)
  }

  lemma ItemKeepsRun<S, T>(stage: Stage<S, T, T>, start: S, items: seq<T>, l: Loop<S, T>, sent: nat, whole: bool,
                           x: T, accepted: bool)
    requires HasRun(stage, start, items, l, sent, whole)
    ensures HasRun(stage, start, items + [x], HandleItem(stage, l, x, accepted), sent, whole && accepted)
  {
    RunSnoc(stage, start, items, x);
    assert |items + [x]| == |items| + 1;
    var result := stage.process(l.stage, x).1;
    if result.Some? {
      SuffixSnoc(l.sent, result.value, sent);
    }
  }

  /** A pass that gets as far as handling a reset command. */
  predicate Resets<T>(p: Pass<T>) {
    !p.shutdown && !p.paused && p.reset
  }

  /** What one more pass without a reset does. */
  lemma PassKeepsRun<S, T>(stage: Stage<S, T, T>, start: S, items: seq<T>, l: Loop<S, T>, sent: nat, whole: bool,
                           p: Pass<T>)
    requires HasRun(stage, start, items, l, sent, whole) && !Resets(p)
    ensures HasRun(stage, start, if Receives(p) && l.running then items + [p.received.value] else items,
                   OnePass(stage, l, p), sent, whole && p.accepted)
  {
    if Receives(p) && l.running {
      assert OnePass(stage, l, p) == HandleItem(stage, l, p.received.value, p.accepted);
      ItemKeepsRun(stage, start, items, l, sent, whole, p.received.value, p.accepted);
    }
  }

  lemma PassesSnoc<T>(before: seq<Pass<T>>, p: Pass<T>)
    ensures AllAccepted(before + [p]) <==> AllAccepted(before) && p.accepted
    ensures Items(before + [p]) ==
            if Receives(p) && (forall i :: 0 <= i < |before| ==> !Leaves(before[i])) then Items(before) + [p.received.value]
            else Items(before)
  {
    var passes := before + [p];
    assert passes[..|before|] == before && passes[|before|] == p;
    assert forall i :: 0 <= i < |before| ==> passes[i] == before[i];
  }

  lemma OnePassMore<S, T>(stage: Stage<S, T, T>, start: S, before: seq<Pass<T>>, l: Loop<S, T>, sent: nat, p: Pass<T>)
    requires HasRun(stage, start, Items(before), l, sent, AllAccepted(before)) && !Resets(p)
    requires l.running <==> forall i :: 0 <= i < |before| ==> !Leaves(before[i])
    ensures HasRun(stage, start, Items(before + [p]), OnePass(stage, l, p), sent, AllAccepted(before + [p]))
  {
    PassesSnoc(before, p);
    PassKeepsRun(stage, start, Items(before), l, sent, AllAccepted(before), p);
  }

  /**
   * Without resets the loop runs its stage over the items it takes: the final state and the
   * counters are those of the run, and if every send was accepted the results sent are exactly
   * the run's outputs.
   */
  lemma {:induction false} LoopRunsItsStage<S, T>(stage: Stage<S, T, T>, passes: seq<Pass<T>>)
    requires forall i :: 0 <= i < |passes| ==> !Resets(passes[i])
    ensures HasRun(stage, stage.initial, Items(passes), Passes(stage, NoCounts(), passes), 0, AllAccepted(passes))
  {
    if passes != [] {
      var before, p := passes[..|passes| - 1], passes[|passes| - 1];
      LoopRunsItsStage(stage, before);
      var l := Passes(stage, NoCounts(), before);
      RunsUntilItLeaves(stage, NoCounts(), before);
      OnePassMore(stage, stage.initial, before, l, 0, p);
      assert passes == before + [p] && Passes(stage, NoCounts(), passes) == OnePass(stage, l, p);
    }
  }

  /**
   * And a reset starts it anew: after the last pass that handled one, number `k`, state, counters
   * and what was sent are those of the stage run from its reset state on the items taken since,
   * the one of that pass included.
   */
  lemma {:induction false} LoopRunsSinceReset<S, T>(stage: Stage<S, T, T>, m: Metrics, passes: seq<Pass<T>>, k: nat)
    requires k < |passes| && Resets(passes[k])
    requires forall i :: 0 <= i < k ==> !Leaves(passes[i])
    requires forall i :: k < i < |passes| ==> !Resets(passes[i])
    ensures var found := Passes(stage, m, passes[..k]);
            HasRun(stage, stage.reset(found.stage), Items(passes[k..]), Passes(stage, m, passes), |found.sent|,
                   AllAccepted(passes[k..]))
    decreases |passes|
  {
    var before, p := passes[..|passes| - 1], passes[|passes| - 1];
    var found := Passes(stage, m, passes[..k]);
    if k == |passes| - 1 {
      assert passes[k..] == [p];
      RunsUntilItLeaves(stage, m, before);
      ResetPassRuns(stage, found, p);
    } else {
      LoopRunsSinceReset(stage, m, before, k);
      assert before[..k] == passes[..k] && before[k..] + [p] == passes[k..];
      var l, start := Passes(stage, m, before), stage.reset(found.stage);
      RunsUntilItLeaves(stage, m, before);
      LeavesInSuffix(before, k);
      OnePassMore(stage, start, before[k..], l, |found.sent|, p);
      assert Passes(stage, m, passes) == OnePass(stage, l, p);
    }
  }

  lemma LeavesInSuffix<T>(passes: seq<Pass<T>>, k: nat)
    requires k <= |passes| && forall i :: 0 <= i < k ==> !Leaves(passes[i])
    ensures (forall i :: 0 <= i < |passes| ==> !Leaves(passes[i]))
            <==> forall i :: 0 <= i < |passes[k..]| ==> !Leaves(passes[k..][i])
  {
    if forall i :: 0 <= i < |passes[k..]| ==> !Leaves(passes[k..][i]) {
      forall i | k <= i < |passes| ensures !Leaves(passes[i]) {
        assert !Leaves(passes[k..][i - k]);
      }
    }
  }

  lemma ResetPassRuns<S, T>(stage: Stage<S, T, T>, l: Loop<S, T>, p: Pass<T>)
    requires l.running && Resets(p)
    ensures HasRun(stage, stage.reset(l.stage), Items([p]), OnePass(stage, l, p), |l.sent|, p.accepted)
    ensures AllAccepted([p]) <==> p.accepted
  {
    var start, l' := stage.reset(l.stage), OnePass(stage, l, p);
    assert [p][..0] == [];
    assert AllAccepted([p]) <==> [p][0].accepted;
    if p.received.Ok? {
      assert Items([p]) == [] + [p.received.value];
      RunSnoc(stage, start, [], p.received.value);
      var result := stage.process(start, p.received.value).1;
      if result.Some? && p.accepted {
        assert l'.sent[|l.sent|..] == [result.value];
      }
    } else {
      assert l'.sent[|l.sent|..] == [];
    }
  }

  lemma PassKeepsBooks<S, T>(stage: Stage<S, T, T>, l: Loop<S, T>, p: Pass<T>)
    requires l.metrics.input == l.metrics.output + l.metrics.filtered + l.metrics.dropped
    ensures var m := OnePass(stage, l, p).metrics; m.input == m.output + m.filtered + m.dropped
  {
  }

  /** With resets too, every input counted is an output, filtered or dropped. */
  lemma {:induction false} LoopBooksBalance<S, T>(stage: Stage<S, T, T>, passes: seq<Pass<T>>)
    ensures var m := Passes(stage, NoCounts(), passes).metrics; m.input == m.output + m.filtered + m.dropped
  {
    if passes != [] {
      var l := Passes(stage, NoCounts(), passes[..|passes| - 1]);
      LoopBooksBalance(stage, passes[..|passes| - 1]);
      PassKeepsBooks(stage, l, passes[|passes| - 1]);
    }
  }

  /** Nothing is taken after a pass that leaves the loop. */
  lemma {:induction false} NothingAfterLeaving<T>(passes: seq<Pass<T>>, k: nat)
    requires k < |passes| && Leaves(passes[k])
    ensures Items(passes) == Items(passes[..k])
  {
    var before := passes[..|passes| - 1];
    if k < |before| {
      NothingAfterLeaving(before, k);
      assert before[..k] == passes[..k];
    }
  }

  // ---------- The loop and the machine ----------

  function LoopOf<S, T>(w: Worker<S, T>): Loop<S, T> {
    Loop(w.stage, w.metrics, w.sent, !HasLeft(w.pc))
  }

  /** The pass that worker `i` of the state machine is due, by its flags and its channels. */
  function PassOf<S, T>(cfg: Config<S, T>, s: State<S, T>, i: nat): Pass<T>
    requires Shape(cfg, s) && i < |s.workers|
  {
    var flags := s.workers[i].flags;
    Pass(flags.shutdown, flags.paused, flags.command.Reset?, RecvAt(cfg, s, i), SendAt(cfg, s, i).Ok?)
  }

  /** Worker `i` alone runs, until it is at the top of its loop or out of it, and has become `l`. */
  ghost predicate Arrives<S, T>(cfg: Config<S, T>, s: State<S, T>, i: nat, run: seq<Action<T>>, l: Loop<S, T>) {
    && (forall k :: 0 <= k < |run| ==> run[k] == Work(i))
    && IsRun(cfg, s, run)
    && i < |After(cfg, s, run).workers|
    && var w := After(cfg, s, run).workers[i];
       (w.pc.CheckShutdown? || w.pc.Leaving?) && LoopOf(w) == l
  }

  lemma {:induction false} Prepend<S, T>(cfg: Config<S, T>, s: State<S, T>, a: Action<T>, run: seq<Action<T>>)
    requires Enabled(cfg, s, a) && IsRun(cfg, Step(cfg, s, a), run)
    ensures IsRun(cfg, s, [a] + run) && After(cfg, s, [a] + run) == After(cfg, Step(cfg, s, a), run)
  {
    if run == [] {
      assert [a] + run == [a] && [a][..0] == [];
      assert IsRun(cfg, s, [a][..0]) && After(cfg, s, [a][..0]) == s;
    } else {
      Prepend(cfg, s, a, run[..|run| - 1]);
      assert ([a] + run)[..|[a] + run| - 1] == [a] + run[..|run| - 1];
    }
  }

  lemma OneStepEarlier<S, T>(cfg: Config<S, T>, s: State<S, T>, i: nat, run: seq<Action<T>>, l: Loop<S, T>)
    requires Enabled(cfg, s, Work(i)) && Arrives(cfg, Step(cfg, s, Work(i)), i, run, l)
    ensures Arrives(cfg, s, i, [Work(i)] + run, l)
  {
    Prepend(cfg, s, Work(i), run);
  }

  /** What a step of worker `i` leaves of its prospects. */
  lemma StepOfWorker<S, T>(cfg: Config<S, T>, s: State<S, T>, i: nat) returns (s': State<S, T>)
    requires Enabled(cfg, s, Work(i))
    ensures s' == Step(cfg, s, Work(i)) && Shape(cfg, s') && s'.workers[i] == Moved(cfg, s, i)
    ensures !s.workers[i].pc.Receive? ==> RecvAt(cfg, s', i) == RecvAt(cfg, s, i)
    ensures !s.workers[i].pc.Sending? ==> SendAt(cfg, s', i) == SendAt(cfg, s, i)
  {
    s' := Step(cfg, s, Work(i));
  }

  /** One more step, and the outcome is counted. */
  lemma FromCounting<S, T>(cfg: Config<S, T>, s: State<S, T>, i: nat) returns (run: seq<Action<T>>)
    requires Shape(cfg, s) && i < |s.workers|
    requires var pc := s.workers[i].pc; pc.CountOutput? || pc.CountDropped? || pc.CountFiltered?
    ensures Arrives(cfg, s, i, run, LoopOf(Local(cfg.stages[i], s.workers[i])))
  {
    var s' := StepOfWorker(cfg, s, i);
    assert Arrives(cfg, s', i, [], LoopOf(s'.workers[i]));
    OneStepEarlier(cfg, s, i, [], LoopOf(s'.workers[i]));
    run := [Work(i)] + [];
  }

  /** What sending a result makes of the loop. */
  function Settled<S, T>(l: Loop<S, T>, result: T, accepted: bool): Loop<S, T> {
    if accepted then l.(metrics := l.metrics.(output := l.metrics.output + 1), sent := l.sent + [result])
    else l.(metrics := l.metrics.(dropped := l.metrics.dropped + 1))
  }

  lemma SentIsSettled<S, T>(stage: Stage<S, T, T>, w: Worker<S, T>, result: Result<(), SendError>)
    requires w.pc.Sending?
    ensures LoopOf(Local(stage, Sent(w, result))) == Settled(LoopOf(w), w.pc.result, result.Ok?)
  {
  }

  lemma FromSending<S, T>(cfg: Config<S, T>, s: State<S, T>, i: nat) returns (run: seq<Action<T>>)
    requires Shape(cfg, s) && i < |s.workers| && s.workers[i].pc.Sending?
    ensures Arrives(cfg, s, i, run, Settled(LoopOf(s.workers[i]), s.workers[i].pc.result, SendAt(cfg, s, i).Ok?))
  {
    SentIsSettled(cfg.stages[i], s.workers[i], SendAt(cfg, s, i));
    var s' := StepOfWorker(cfg, s, i);
    run := FromCounting(cfg, s', i);
    OneStepEarlier(cfg, s, i, run, LoopOf(Local(cfg.stages[i], s'.workers[i])));
    run := [Work(i)] + run;
  }

  /** What processing an item that is already counted makes of the loop. */
  function Processing<S, T>(stage: Stage<S, T, T>, l: Loop<S, T>, x: T, accepted: bool): Loop<S, T> {
    var (s', result) := stage.process(l.stage, x);
    if result.None? then l.(stage := s', metrics := l.metrics.(filtered := l.metrics.filtered + 1))
    else Settled(l.(stage := s'), result.value, accepted)
  }

  lemma ProcessedIsProcessing<S, T>(stage: Stage<S, T, T>, w: Worker<S, T>, accepted: bool)
    requires w.pc.InHand?
    ensures var w' := Process(stage, w);
            Processing(stage, LoopOf(w), w.pc.item, accepted)
            == if w'.pc.Sending? then Settled(LoopOf(w'), w'.pc.result, accepted) else LoopOf(Local(stage, w'))
  {
  }

  lemma FromInHand<S, T>(cfg: Config<S, T>, s: State<S, T>, i: nat) returns (run: seq<Action<T>>)
    requires Shape(cfg, s) && i < |s.workers| && s.workers[i].pc.InHand?
    ensures Arrives(cfg, s, i, run, Processing(cfg.stages[i], LoopOf(s.workers[i]), s.workers[i].pc.item,
                                               SendAt(cfg, s, i).Ok?))
  {
    var l := Processing(cfg.stages[i], LoopOf(s.workers[i]), s.workers[i].pc.item, SendAt(cfg, s, i).Ok?);
    ProcessedIsProcessing(cfg.stages[i], s.workers[i], SendAt(cfg, s, i).Ok?);
    var s' := StepOfWorker(cfg, s, i);
    if s'.workers[i].pc.Sending? {
      run := FromSending(cfg, s', i);
    } else {
      run := FromCounting(cfg, s', i);
    }
    OneStepEarlier(cfg, s, i, run, l);
    run := [Work(i)] + run;
  }

  lemma FromNoting<S, T>(cfg: Config<S, T>, s: State<S, T>, i: nat) returns (run: seq<Action<T>>)
    requires Shape(cfg, s) && i < |s.workers| && s.workers[i].pc.Noting?
    ensures Arrives(cfg, s, i, run, HandleItem(cfg.stages[i], LoopOf(s.workers[i]), s.workers[i].pc.item,
                                               SendAt(cfg, s, i).Ok?))
  {
    var s' := StepOfWorker(cfg, s, i);
    run := FromInHand(cfg, s', i);
    OneStepEarlier(cfg, s, i, run, HandleItem(cfg.stages[i], LoopOf(s.workers[i]), s.workers[i].pc.item,
                                              SendAt(cfg, s, i).Ok?));
    run := [Work(i)] + run;
  }

  /** What the loop does with what it receives. */
  function Outcome<S, T>(stage: Stage<S, T, T>, l: Loop<S, T>, received: Result<T, RecvError>, accepted: bool): Loop<S, T> {
    match received
    case Ok(x) => HandleItem(stage, l, x, accepted)
    case Err(Empty) => l
    case Err(SenderGone) => l.(running := false)
  }

  lemma FromReceive<S, T>(cfg: Config<S, T>, s: State<S, T>, i: nat) returns (run: seq<Action<T>>)
    requires Shape(cfg, s) && i < |s.workers| && s.workers[i].pc.Receive?
    ensures Arrives(cfg, s, i, run,
                    Outcome(cfg.stages[i], LoopOf(s.workers[i]), RecvAt(cfg, s, i), SendAt(cfg, s, i).Ok?))
  {
    var s' := StepOfWorker(cfg, s, i);
    if RecvAt(cfg, s, i).Ok? {
      run := FromNoting(cfg, s', i);
    } else {
      run := [];
      assert Arrives(cfg, s', i, [], LoopOf(s'.workers[i]));
    }
    OneStepEarlier(cfg, s, i, run,
                   Outcome(cfg.stages[i], LoopOf(s.workers[i]), RecvAt(cfg, s, i), SendAt(cfg, s, i).Ok?));
    run := [Work(i)] + run;
  }

  /** Whether the worker is about to carry a reset out. */
  predicate WillReset<S, T>(w: Worker<S, T>) {
    w.pc.Resetting? || (w.pc.CheckCommand? && w.flags.command.Reset?)
  }

  function ToReceive<T>(pc: Pc<T>): nat {
    match pc
    case CheckCommand => 4
    case Resetting => 3
    case StoringRun => 2
    case ClearingPaused => 1
    case _ => 0
  }

  /** What the loop will have become by the time it receives. */
  function AtReceive<S, T>(stage: Stage<S, T, T>, w: Worker<S, T>): Loop<S, T> {
    HandleReset(stage, LoopOf(w), WillReset(w))
  }

  lemma TowardsReceive<S, T>(stage: Stage<S, T, T>, w: Worker<S, T>)
    requires ToReceive(w.pc) > 0
    ensures var w' := Local(stage, w);
            && (ToReceive(w'.pc) > 0 || w'.pc.Receive?) && ToReceive(w'.pc) < ToReceive(w.pc)
            && AtReceive(stage, w') == AtReceive(stage, w)
  {
  }

  /** Past the check for a pause, down to receiving, handling a reset on the way. */
  lemma {:induction false} FromCommand<S, T>(cfg: Config<S, T>, s: State<S, T>, i: nat) returns (run: seq<Action<T>>)
    requires Shape(cfg, s) && i < |s.workers| && (ToReceive(s.workers[i].pc) > 0 || s.workers[i].pc.Receive?)
    ensures Arrives(cfg, s, i, run,
                    Outcome(cfg.stages[i], AtReceive(cfg.stages[i], s.workers[i]), RecvAt(cfg, s, i), SendAt(cfg, s, i).Ok?))
    decreases ToReceive(s.workers[i].pc)
  {
    if s.workers[i].pc.Receive? {
      run := FromReceive(cfg, s, i);
    } else {
      var l := Outcome(cfg.stages[i], AtReceive(cfg.stages[i], s.workers[i]), RecvAt(cfg, s, i), SendAt(cfg, s, i).Ok?);
      TowardsReceive(cfg.stages[i], s.workers[i]);
      var s' := StepOfWorker(cfg, s, i);
      run := FromCommand(cfg, s', i);
      OneStepEarlier(cfg, s, i, run, l);
      run := [Work(i)] + run;
    }
  }

  /** Past the check for a shutdown. */
  lemma FromPaused<S, T>(cfg: Config<S, T>, s: State<S, T>, i: nat) returns (run: seq<Action<T>>)
    requires Shape(cfg, s) && i < |s.workers| && s.workers[i].pc.CheckPaused? && !s.workers[i].flags.shutdown
    ensures Arrives(cfg, s, i, run, OnePass(cfg.stages[i], LoopOf(s.workers[i]), PassOf(cfg, s, i)))
  {
    var s' := StepOfWorker(cfg, s, i);
    if s.workers[i].flags.paused {
      run := [];
      assert Arrives(cfg, s', i, [], LoopOf(s'.workers[i]));
    } else {
      run := FromCommand(cfg, s', i);
    }
    OneStepEarlier(cfg, s, i, run, OnePass(cfg.stages[i], LoopOf(s.workers[i]), PassOf(cfg, s, i)));
    run := [Work(i)] + run;
  }

  /**
   * The loop and the state machine agree: in any state with worker `i` at the top of its loop,
   * its own next steps make exactly the pass that its flags and its channels call for.
   */
  lemma UndisturbedPass<S, T>(cfg: Config<S, T>, s: State<S, T>, i: nat) returns (run: seq<Action<T>>)
    requires Shape(cfg, s) && i < |s.workers| && s.workers[i].pc.CheckShutdown?
    ensures run != [] && Arrives(cfg, s, i, run, OnePass(cfg.stages[i], LoopOf(s.workers[i]), PassOf(cfg, s, i)))
  {
    var s' := StepOfWorker(cfg, s, i);
    if s.workers[i].flags.shutdown {
      run := [];
      assert Arrives(cfg, s', i, [], LoopOf(s'.workers[i]));
    } else {
      run := FromPaused(cfg, s', i);
    }
    OneStepEarlier(cfg, s, i, run, OnePass(cfg.stages[i], LoopOf(s.workers[i]), PassOf(cfg, s, i)));
    run := [Work(i)] + run;
  }

  // ---------- The loop ----------

  class StageMetrics {
    var inputCount: nat
    var outputCount: nat
    var filteredCount: nat
    var droppedCount: nat

    ghost function View(): Metrics
      reads this
    {
      Metrics(inputCount, outputCount, filteredCount, droppedCount)
    }

    constructor ()
      ensures View() == NoCounts()
    {
      inputCount, outputCount, filteredCount, droppedCount := 0, 0, 0, 0;
    }

    method RecordInput()
      modifies this`inputCount
      ensures inputCount == old(inputCount) + 1
    {
      inputCount := inputCount + 1;
    }

    method RecordOutput()
      modifies this`outputCount
      ensures outputCount == old(outputCount) + 1
    {
      outputCount := outputCount + 1;
    }

    method RecordFiltered()
      modifies this`filteredCount
      ensures filteredCount == old(filteredCount) + 1
    {
      filteredCount := filteredCount + 1;
    }

    method RecordDropped()
      modifies this`droppedCount
      ensures droppedCount == old(droppedCount) + 1
    {
      droppedCount := droppedCount + 1;
    }

    method Reset()
      modifies this
      ensures View() == NoCounts()
    {
      inputCount, outputCount, filteredCount, droppedCount := 0, 0, 0, 0;
    }
  }

  /** What the worker's own stores leave in its control block: a reset is answered by a run command. */
  function Answered<S, T>(stage: Stage<S, T, T>, m: Metrics, f: C.Flags, passes: seq<Pass<T>>): C.Flags {
    if passes == [] then f
    else
      var before, p := passes[..|passes| - 1], passes[|passes| - 1];
      var f' := Answered(stage, m, f, before);
      if Passes(stage, m, before).running && !p.shutdown && !p.paused && p.reset then C.Commanded(f', C.Command.Run)
      else f'
  }

  /** Some pass, none before it leaving the loop, handles a reset command. */
  predicate HandlesReset<T>(passes: seq<Pass<T>>) {
    exists k :: 0 <= k < |passes| && Resets(passes[k]) && forall i :: 0 <= i < k ==> !Leaves(passes[i])
  }

  /** All that the worker does to its control block is to answer resets by command `Run`, which also unpauses. */
  lemma {:induction false} AnsweredIs<S, T>(stage: Stage<S, T, T>, m: Metrics, f: C.Flags, passes: seq<Pass<T>>)
    ensures Answered(stage, m, f, passes) ==
            if HandlesReset(passes) then C.Flags(C.Command.Run, f.shutdown, false) else f
  {
    if passes != [] {
      var before, p := passes[..|passes| - 1], passes[|passes| - 1];
      AnsweredIs(stage, m, f, before);
      RunsUntilItLeaves(stage, m, before);
      HandlesSnoc(before, p);
      assert passes == before + [p];
    }
  }

  lemma HandlesSnoc<T>(before: seq<Pass<T>>, p: Pass<T>)
    ensures HandlesReset(before + [p]) <==>
            HandlesReset(before) || (Resets(p) && forall i :: 0 <= i < |before| ==> !Leaves(before[i]))
  {
    var passes := before + [p];
    assert forall i :: 0 <= i < |before| ==> passes[i] == before[i];
    if HandlesReset(before) {
      var k :| 0 <= k < |before| && Resets(before[k]) && forall i :: 0 <= i < k ==> !Leaves(before[i]);
      assert Resets(passes[k]);
    } else if Resets(p) && forall i :: 0 <= i < |before| ==> !Leaves(before[i]) {
      assert Resets(passes[|before|]);
    }
  }

  /** What the loop does with one item. */
  method ProcessAndSend<S, T>(stage: Stage<S, T, T>, s: S, sent: seq<T>, item: T, accepted: bool, metrics: StageMetrics)
    returns (s': S, sent': seq<T>)
    modifies metrics
    ensures Loop(s', metrics.View(), sent', true)
            == HandleItem(stage, Loop(s, old(metrics.View()), sent, true), item, accepted)
  {
    metrics.RecordInput();
    var (after, result) := stage.process(s, item);
    s', sent' := after, sent;
    if result.Some? {
      if accepted {
        sent' := sent + [result.value];
        metrics.RecordOutput();
      } else {
        metrics.RecordDropped();
      }
    } else {
      metrics.RecordFiltered();
    }
  }

  method StageWorker<S, T>(stage: Stage<S, T, T>, passes: seq<Pass<T>>, control: C.StageControl, metrics: StageMetrics)
    returns (s: S, sent: seq<T>, running: bool)
    modifies control, metrics
    ensures Loop(s, metrics.View(), sent, running) == Passes(stage, old(metrics.View()), passes)
    ensures control.View() == Answered(stage, old(metrics.View()), old(control.View()), passes)
    ensures C.StateFromU8(control.state) == if running then C.Running else C.Stopped
  {
    control.SetState(C.Running);
    s, sent, running := stage.initial, [], true;
    var k := 0;
    while k < |passes|
      invariant k <= |passes| && running
      invariant C.StateFromU8(control.state) == C.Running
      invariant Loop(s, metrics.View(), sent, running) == Passes(stage, old(metrics.View()), passes[..k])
      invariant control.View() == Answered(stage, old(metrics.View()), old(control.View()), passes[..k])
    {
      var p := passes[k];
      assert passes[..k + 1][..k] == passes[..k];
      ghost var l := Loop(s, metrics.View(), sent, running);
      k := k + 1;
      if p.shutdown {
        running := false;
        break;
      }
      if p.paused {
        continue;
      }
      if p.reset {
        s := stage.reset(s);
        metrics.Reset();
        control.SetCommand(C.Command.Run);
      }
      assert Loop(s, metrics.View(), sent, running) == HandleReset(stage, l, p.reset);
      match p.received {
        case Ok(item) => s, sent := ProcessAndSend(stage, s, sent, item, p.accepted, metrics);
        case Err(Empty) => {}
        case Err(SenderGone) =>
          running := false;
          break;
      }
    }
    if running {
      assert passes[..k] == passes;
    } else {
      StaysOut(stage, old(metrics.View()), old(control.View()), passes, k);
      control.SetState(C.Stopping);
      control.SetState(C.Stopped);
    }
  }

  lemma {:induction false} StaysOut<S, T>(stage: Stage<S, T, T>, m: Metrics, f: C.Flags, passes: seq<Pass<T>>, k: nat)
    requires k <= |passes| && !Passes(stage, m, passes[..k]).running
    ensures Passes(stage, m, passes) == Passes(stage, m, passes[..k])
    ensures Answered(stage, m, f, passes) == Answered(stage, m, f, passes[..k])
  {
    if k < |passes| {
      var before := passes[..|passes| - 1];
      assert before[..k] == passes[..k];
      StaysOut(stage, m, f, before, k);
    } else {
      assert passes[..k] == passes;
    }
  }
}
