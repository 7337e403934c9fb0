/**
 * The threaded pipeline as a state machine: any number of stage workers joined by bounded
 * channels, controllers that set commands, and a thread that feeds and drains the pipeline.
 * Every atomic load, store and channel operation is a step of its own.
 */
module Network {
  import opened Wrappers
  import opened Stages
  import opened Channel
  import C = StageControl

  datatype Pc<T> =
    | CheckShutdown
    | CheckPaused
    | CheckCommand
    | Resetting
    | StoringRun
    | ClearingPaused
    | Receive
    | Noting(item: T)
    | InHand(item: T)
    | Sending(result: T)
    | CountOutput
    | CountDropped
    | CountFiltered
    | Leaving
    | LeftOutput
    | Stopped

  datatype Metrics = Metrics(input: nat, output: nat, filtered: nat, dropped: nat)

  /**
   * `pending` holds the commands whose flag is still to be stored. `received`, `results`,
   * `sent`, `failed`, `resets` and `era` are histories.
   */
  datatype Worker<S, T> = Worker(
    pc: Pc<T>, stage: S, flags: C.Flags, pending: multiset<C.Command>, metrics: Metrics,
    received: seq<T>, results: seq<T>, sent: seq<T>, failed: nat, resets: nat, era: Era<S>)

  /** The last reset: the state that it found, and how long the histories were. */
  datatype Era<S> = Era(stage: S, received: nat, results: nat, sent: nat, failed: nat)

  /** Queue `i` feeds worker `i`; the last one holds the output. */
  datatype State<S, T> = State(
    workers: seq<Worker<S, T>>, queues: seq<seq<T>>, inputOpen: bool, accepted: seq<T>, delivered: seq<T>)

  datatype Config<!S, !T> = Config(stages: seq<Stage<S, T, T>>, capacity: nat)

  datatype Action<T> =
    | Work(i: nat)
    | BeginCommand(i: nat, command: C.Command)
    | FinishCommand(i: nat, command: C.Command)
    | Offer(value: T)
    | CloseInput
    | Deliver

  function Init<S, T>(cfg: Config<S, T>): State<S, T> {
    State(seq(|cfg.stages|, i requires 0 <= i < |cfg.stages| => InitWorker(cfg.stages[i])),
          seq(|cfg.stages| + 1, _ => []), true, [], [])
  }

  function InitWorker<S, T>(stage: Stage<S, T, T>): Worker<S, T> {
    Worker(CheckShutdown, stage.initial, C.Initial(), multiset{}, Metrics(0, 0, 0, 0), [], [], [], 0, 0,
           Era(stage.initial, 0, 0, 0, 0))
  }

  predicate Shape<S, T>(cfg: Config<S, T>, s: State<S, T>) {
    |s.workers| == |cfg.stages| && |s.queues| == |cfg.stages| + 1
  }

  predicate Enabled<S, T>(cfg: Config<S, T>, s: State<S, T>, a: Action<T>) {
    Shape(cfg, s) &&
    match a
    case Work(i) => i < |s.workers| && !s.workers[i].pc.Stopped?
    case BeginCommand(i, _) => i < |s.workers|
    case FinishCommand(i, c) => i < |s.workers| && c in s.workers[i].pending
    case Offer(_) => s.inputOpen
    case CloseInput => true
    case Deliver => s.queues[|s.workers|] != []
  }

  /** Leaving the loop drops the sender first, then the receiver. */
  predicate SenderAlive<S, T>(s: State<S, T>, k: nat)
    requires k <= |s.workers|
  {
    if k == 0 then s.inputOpen else !s.workers[k - 1].pc.LeftOutput? && !s.workers[k - 1].pc.Stopped?
  }

  predicate ReceiverAlive<S, T>(s: State<S, T>, k: nat)
    requires k <= |s.workers|
  {
    k == |s.workers| || !s.workers[k].pc.Stopped?
  }

  /** The steps that concern the worker alone. */
  function Local<S, T>(stage: Stage<S, T, T>, w: Worker<S, T>): Worker<S, T> {
    match w.pc
    case CheckShutdown => w.(pc := if w.flags.shutdown then Leaving else CheckPaused)
    case CheckPaused => w.(pc := if w.flags.paused then CheckShutdown else CheckCommand)
    case CheckCommand => w.(pc := if w.flags.command.Reset? then Resetting else Receive)
    case Resetting =>
      w.(pc := StoringRun, stage := stage.reset(w.stage), metrics := Metrics(0, 0, 0, 0), resets := w.resets + 1,
         era := Era(w.stage, |w.received|, |w.results|, |w.sent|, w.failed))
    case StoringRun => w.(pc := ClearingPaused, flags := C.Apply(w.flags, C.StoreCommand(C.Command.Run)))
    case ClearingPaused => w.(pc := Receive, flags := C.Apply(w.flags, C.StoreFlag(C.Command.Run)))
    case Noting(x) => w.(pc := InHand(x), metrics := w.metrics.(input := w.metrics.input + 1))
    case CountOutput => w.(pc := CheckShutdown, metrics := w.metrics.(output := w.metrics.output + 1))
    case CountDropped => w.(pc := CheckShutdown, metrics := w.metrics.(dropped := w.metrics.dropped + 1))
    case CountFiltered => w.(pc := CheckShutdown, metrics := w.metrics.(filtered := w.metrics.filtered + 1))
    case Leaving => w.(pc := LeftOutput)
    case LeftOutput => w.(pc := Stopped)
    case _ => w
  }

  function Process<S, T>(stage: Stage<S, T, T>, w: Worker<S, T>): Worker<S, T>
    requires w.pc.InHand?
  {
    var (s', result) := stage.process(w.stage, w.pc.item);
    if result.Some? then w.(pc := Sending(result.value), stage := s', results := w.results + [result.value])
    else w.(pc := CountFiltered, stage := s')
  }

  function Received<S, T>(w: Worker<S, T>, result: Result<T, RecvError>): Worker<S, T> {
    match result
    case Ok(x) => w.(pc := Noting(x), received := w.received + [x])
    case Err(Empty) => w.(pc := CheckShutdown)
    case Err(SenderGone) => w.(pc := Leaving)
  }

  function Sent<S, T>(w: Worker<S, T>, result: Result<(), SendError>): Worker<S, T>
    requires w.pc.Sending?
  {
    if result.Ok? then w.(pc := CountOutput, sent := w.sent + [w.pc.result])
    else w.(pc := CountDropped, failed := w.failed + 1)
  }

  function RecvAt<S, T>(cfg: Config<S, T>, s: State<S, T>, i: nat): Result<T, RecvError>
    requires Shape(cfg, s) && i < |s.workers|
  {
    RecvResult(s.queues[i], SenderAlive(s, i))
  }

  function SendAt<S, T>(cfg: Config<S, T>, s: State<S, T>, i: nat): Result<(), SendError>
    requires Shape(cfg, s) && i < |s.workers|
  {
    TrySendResult(|s.queues[i + 1]|, cfg.capacity, ReceiverAlive(s, i + 1))
  }

  /** A step of worker `i`, as far as the worker is concerned. */
  function Moved<S, T>(cfg: Config<S, T>, s: State<S, T>, i: nat): Worker<S, T>
    requires Shape(cfg, s) && i < |s.workers|
  {
    var w := s.workers[i];
    if w.pc.Receive? then Received(w, RecvAt(cfg, s, i))
    else if w.pc.Sending? then Sent(w, SendAt(cfg, s, i))
    else if w.pc.InHand? then Process(cfg.stages[i], w)
    else Local(cfg.stages[i], w)
  }

  /** A step of worker `i`, as far as the queues are concerned. */
  function Queued<S, T>(cfg: Config<S, T>, s: State<S, T>, i: nat): seq<seq<T>>
    requires Shape(cfg, s) && i < |s.workers|
  {
    var w := s.workers[i];
    if w.pc.Receive? && RecvAt(cfg, s, i).Ok? then s.queues[i := s.queues[i][1..]]
    else if w.pc.Sending? && SendAt(cfg, s, i).Ok? then s.queues[i + 1 := s.queues[i + 1] + [w.pc.result]]
    else s.queues
  }

  function Begun<S, T>(w: Worker<S, T>, c: C.Command): Worker<S, T> {
    w.(flags := C.Apply(w.flags, C.StoreCommand(c)), pending := w.pending + multiset{c})
  }

  function Finished<S, T>(w: Worker<S, T>, c: C.Command): Worker<S, T> {
    w.(flags := C.Apply(w.flags, C.StoreFlag(c)), pending := w.pending - multiset{c})
  }

  function Step<S, T>(cfg: Config<S, T>, s: State<S, T>, a: Action<T>): State<S, T>
    requires Enabled(cfg, s, a)
  {
    match a
    case Work(i) => s.(workers := s.workers[i := Moved(cfg, s, i)], queues := Queued(cfg, s, i))
    case BeginCommand(i, c) => s.(workers := s.workers[i := Begun(s.workers[i], c)])
    case FinishCommand(i, c) => s.(workers := s.workers[i := Finished(s.workers[i], c)])
    case Offer(x) =>
      if TrySendResult(|s.queues[0]|, cfg.capacity, ReceiverAlive(s, 0)).Ok? then
        s.(queues := s.queues[0 := s.queues[0] + [x]], accepted := s.accepted + [x])
      else s
    case CloseInput => s.(inputOpen := false)
    case Deliver =>
      var n := |s.workers|;
      s.(queues := s.queues[n := s.queues[n][1..]], delivered := s.delivered + [s.queues[n][0]])
  }

  predicate IsRun<S, T>(cfg: Config<S, T>, s: State<S, T>, actions: seq<Action<T>>)
    decreases |actions|, 1
  {
    actions == [] ||
    (IsRun(cfg, s, actions[..|actions| - 1]) &&
     Enabled(cfg, After(cfg, s, actions[..|actions| - 1]), actions[|actions| - 1]))
  }

  function After<S, T>(cfg: Config<S, T>, s: State<S, T>, actions: seq<Action<T>>): State<S, T>
    requires IsRun(cfg, s, actions)
    decreases |actions|, 2
  {
    if actions == [] then s
    else Step(cfg, After(cfg, s, actions[..|actions| - 1]), actions[|actions| - 1])
  }

  // ---------- Channels ----------

  /** All that has gone into queue `k`. */
  function Into<S, T>(s: State<S, T>, k: nat): seq<T>
    requires k <= |s.workers|
  {
    if k == 0 then s.accepted else s.workers[k - 1].sent
  }

  /** All that has come out of queue `k`. */
  function OutOf<S, T>(s: State<S, T>, k: nat): seq<T>
    requires k <= |s.workers|
  {
    if k == |s.workers| then s.delivered else s.workers[k].received
  }

  ghost predicate LinkAgrees<S, T>(cfg: Config<S, T>, s: State<S, T>, k: nat)
    requires Shape(cfg, s) && k <= |s.workers|
  {
    Into(s, k) == OutOf(s, k) + s.queues[k] && |s.queues[k]| <= cfg.capacity
  }

  ghost predicate LinksAgree<S, T>(cfg: Config<S, T>, s: State<S, T>) {
    Shape(cfg, s) && forall k: nat :: k <= |s.workers| ==> LinkAgrees(cfg, s, k)
  }

  /** What a step of worker `i` takes from queue `i`, and what it puts into the next one. */
  function Taken<S, T>(cfg: Config<S, T>, s: State<S, T>, i: nat): seq<T>
    requires Shape(cfg, s) && i < |s.workers|
  {
    if s.workers[i].pc.Receive? && s.queues[i] != [] then [s.queues[i][0]] else []
  }

  function Put<S, T>(cfg: Config<S, T>, s: State<S, T>, i: nat): seq<T>
    requires Shape(cfg, s) && i < |s.workers|
  {
    if s.workers[i].pc.Sending? && SendAt(cfg, s, i).Ok? then [s.workers[i].pc.result] else []
  }

  lemma MovedHistories<S, T>(cfg: Config<S, T>, s: State<S, T>, i: nat)
    requires Shape(cfg, s) && i < |s.workers|
    ensures Moved(cfg, s, i).received == s.workers[i].received + Taken(cfg, s, i)
    ensures Moved(cfg, s, i).sent == s.workers[i].sent + Put(cfg, s, i)
  {
  }

  lemma QueuedAt<S, T>(cfg: Config<S, T>, s: State<S, T>, i: nat, k: nat)
    requires Shape(cfg, s) && i < |s.workers| && k <= |s.workers|
    ensures |Queued(cfg, s, i)| == |s.queues|
    ensures k == i ==> Taken(cfg, s, i) + Queued(cfg, s, i)[k] == s.queues[k]
    ensures k == i + 1 ==> Queued(cfg, s, i)[k] == s.queues[k] + Put(cfg, s, i)
    ensures k != i && k != i + 1 ==> Queued(cfg, s, i)[k] == s.queues[k]
    ensures |s.queues[k]| <= cfg.capacity ==> |Queued(cfg, s, i)[k]| <= cfg.capacity
  {
  }

  lemma MoveKeepsLink<S, T>(cfg: Config<S, T>, s: State<S, T>, i: nat, k: nat)
    requires Enabled(cfg, s, Work(i)) && k <= |s.workers| && LinkAgrees(cfg, s, k)
    ensures LinkAgrees(cfg, Step(cfg, s, Work(i)), k)
  {
    MovedHistories(cfg, s, i);
    QueuedAt(cfg, s, i, k);
    var s' := Step(cfg, s, Work(i));
    Regrouped(OutOf(s, k), Taken(cfg, s, i), s'.queues[k]);
    Regrouped(OutOf(s, k), s.queues[k], Put(cfg, s, i));
    if k == i {
      assert Into(s', k) == Into(s, k) && OutOf(s', k) == OutOf(s, k) + Taken(cfg, s, i);
    } else if k == i + 1 {
      assert Into(s', k) == Into(s, k) + Put(cfg, s, i) && OutOf(s', k) == OutOf(s, k);
    } else {
      assert Into(s', k) == Into(s, k) && OutOf(s', k) == OutOf(s, k);
    }
  }

  lemma Regrouped<T>(a: seq<T>, b: seq<T>, c: seq<T>)
    ensures (a + b) + c == a + (b + c)
  {
  }

  lemma OfferKeepsLink<S, T>(cfg: Config<S, T>, s: State<S, T>, x: T, k: nat)
    requires Enabled(cfg, s, Offer(x)) && k <= |s.workers| && LinkAgrees(cfg, s, k)
    ensures LinkAgrees(cfg, Step(cfg, s, Offer(x)), k)
  {
    if k == 0 {
      Regrouped(OutOf(s, 0), s.queues[0], [x]);
    }
  }

  lemma DeliverKeepsLink<S, T>(cfg: Config<S, T>, s: State<S, T>, k: nat)
    requires Enabled(cfg, s, Deliver) && k <= |s.workers| && LinkAgrees(cfg, s, k)
    ensures LinkAgrees(cfg, Step(cfg, s, Deliver), k)
  {
    if k == |s.workers| {
      var q := s.queues[k];
      assert q == [q[0]] + q[1..];
      Regrouped(s.delivered, [q[0]], q[1..]);
    }
  }

  lemma StepKeepsLink<S, T>(cfg: Config<S, T>, s: State<S, T>, a: Action<T>, k: nat)
    requires Enabled(cfg, s, a) && k <= |s.workers| && LinkAgrees(cfg, s, k)
    ensures LinkAgrees(cfg, Step(cfg, s, a), k)
  {
    match a
    case Work(i) => MoveKeepsLink(cfg, s, i, k);
    case Offer(x) => OfferKeepsLink(cfg, s, x, k);
    case Deliver => DeliverKeepsLink(cfg, s, k);
    case _ =>
      var s' := Step(cfg, s, a);
      assert s'.queues == s.queues && Into(s', k) == Into(s, k) && OutOf(s', k) == OutOf(s, k);
  }

  /** What a step with a channel comes to, in the terms of its ends, its length and its capacity. */
  lemma OfferIsAcceptedIff<S, T>(cfg: Config<S, T>, s: State<S, T>, x: T)
    requires Enabled(cfg, s, Offer(x))
    ensures var s', room := Step(cfg, s, Offer(x)), |s.queues[0]| < cfg.capacity;
            var alive := s.workers == [] || !s.workers[0].pc.Stopped?;
            && s'.workers == s.workers
            && s'.accepted == (if alive && room then s.accepted + [x] else s.accepted)
            && s'.queues == (if alive && room then s.queues[0 := s.queues[0] + [x]] else s.queues)
  {
  }

  /** A result is sent if and only if there is room and whoever is next has not gone. */
  lemma ResultIsSentIff<S, T>(cfg: Config<S, T>, s: State<S, T>, i: nat)
    requires Enabled(cfg, s, Work(i)) && s.workers[i].pc.Sending?
    ensures var w, s' := s.workers[i], Step(cfg, s, Work(i));
            var alive := i + 1 == |s.workers| || !s.workers[i + 1].pc.Stopped?;
            if alive && |s.queues[i + 1]| < cfg.capacity then
              s'.workers[i] == w.(pc := CountOutput, sent := w.sent + [w.pc.result])
              && s'.queues == s.queues[i + 1 := s.queues[i + 1] + [w.pc.result]]
            else
              s'.workers[i] == w.(pc := CountDropped, failed := w.failed + 1) && s'.queues == s.queues
  {
  }

  /** Whatever is queued is received first; only then the loss of the sender shows. */
  lemma ItemIsReceivedIff<S, T>(cfg: Config<S, T>, s: State<S, T>, i: nat)
    requires Enabled(cfg, s, Work(i)) && s.workers[i].pc.Receive?
    ensures var w, s' := s.workers[i], Step(cfg, s, Work(i));
            if s.queues[i] != [] then
              s'.workers[i] == w.(pc := Noting(s.queues[i][0]), received := w.received + [s.queues[i][0]])
              && s'.queues == s.queues[i := s.queues[i][1..]]
            else
              s'.workers[i] == w.(pc := if SenderAlive(s, i) then CheckShutdown else Leaving) && s'.queues == s.queues
  {
  }

  // ---------- One worker ----------

  /** What the stage has been given to process so far. */
  function Processed<S, T>(w: Worker<S, T>): seq<T> {
    if (w.pc.Noting? || w.pc.InHand?) && w.received != [] then w.received[..|w.received| - 1] else w.received
  }

  function OnTheWay<S, T>(w: Worker<S, T>): seq<T> {
    if w.pc.Sending? then [w.pc.result] else []
  }

  function One(b: bool): nat {
    if b then 1 else 0
  }

  /** The item a worker holds is the last it received. */
  ghost predicate HoldsLast<S, T>(w: Worker<S, T>) {
    (w.pc.Noting? || w.pc.InHand?) ==>
      w.received != [] && w.received[|w.received| - 1] == w.pc.item
  }

  /** Since the start or the last reset, each counted input has exactly one outcome or is in the works. */
  ghost predicate BooksBalance<S, T>(w: Worker<S, T>) {
    w.metrics.input ==
    w.metrics.filtered + w.metrics.output + w.metrics.dropped
    + One(w.pc.InHand? || w.pc.Sending? || w.pc.CountOutput? || w.pc.CountDropped? || w.pc.CountFiltered?)
  }

  /** Without a reset so far, the metrics say what has become of the items. */
  ghost predicate MetricsAgree<S, T>(w: Worker<S, T>) {
    && |w.received| == w.metrics.input + One(w.pc.Noting?)
    && |w.sent| == w.metrics.output + One(w.pc.CountOutput?)
    && w.failed == w.metrics.dropped + One(w.pc.CountDropped?)
  }

  /** Over a worker's whole life, each result was sent, failed to be sent or is on the way. */
  ghost predicate ResultsAgree<S, T>(w: Worker<S, T>) {
    && |w.results| <= |Processed(w)|
    && |w.results| == |w.sent| + w.failed + |OnTheWay(w)|
  }

  ghost predicate WorkerAgrees<S, T>(stage: Stage<S, T, T>, w: Worker<S, T>) {
    && HoldsLast(w)
    && BooksBalance(w)
    && ResultsAgree(w)
    && (w.resets == 0 ==> MetricsAgree(w) && (w.stage, w.results) == Run(stage, stage.initial, Processed(w)))
    && (w.failed == 0 ==> w.results == w.sent + OnTheWay(w))
  }

  /** What the steps that concern the worker alone leave as it is. */
  lemma LocalLeaves<S, T>(stage: Stage<S, T, T>, w: Worker<S, T>)
    requires !w.pc.Sending? && !w.pc.Receive? && !w.pc.InHand?
    ensures var w' := Local(stage, w);
            && w'.received == w.received && w'.results == w.results && w'.sent == w.sent && w'.failed == w.failed
            && !w'.pc.Noting? && !w'.pc.Sending? && (w'.pc.InHand? <==> w.pc.Noting?)
            && (w.pc.Noting? ==> w'.pc == InHand(w.pc.item))
            && (if w.pc.Resetting? then w'.resets > 0 else w'.resets == w.resets && w'.stage == w.stage)
            && Processed(w') == Processed(w) && OnTheWay(w') == OnTheWay(w)
  {
  }

  lemma LocalKeepsBooks<S, T>(stage: Stage<S, T, T>, w: Worker<S, T>)
    requires !w.pc.Sending? && !w.pc.Receive? && !w.pc.InHand?
    ensures BooksBalance(w) ==> BooksBalance(Local(stage, w))
    ensures MetricsAgree(w) && !w.pc.Resetting? ==> MetricsAgree(Local(stage, w))
  {
  }

  lemma LocalKeepsWorker<S, T>(stage: Stage<S, T, T>, w: Worker<S, T>)
    requires WorkerAgrees(stage, w) && !w.pc.Sending? && !w.pc.Receive? && !w.pc.InHand?
    ensures WorkerAgrees(stage, Local(stage, w))
  {
    LocalLeaves(stage, w);
    LocalKeepsBooks(stage, w);
  }

  lemma ProcessKeepsWorker<S, T>(stage: Stage<S, T, T>, w: Worker<S, T>)
    requires WorkerAgrees(stage, w) && w.pc.InHand?
    ensures WorkerAgrees(stage, Process(stage, w))
  {
    var w' := Process(stage, w);
    assert w.received == Processed(w) + [w.pc.item] && Processed(w') == w.received;
    assert w'.resets == w.resets && w'.sent == w.sent && w'.failed == w.failed;
    if w.resets == 0 {
      RunSnoc(stage, stage.initial, Processed(w), w.pc.item);
    }
  }

  lemma ReceivedKeepsWorker<S, T>(stage: Stage<S, T, T>, w: Worker<S, T>, result: Result<T, RecvError>)
    requires WorkerAgrees(stage, w) && w.pc.Receive?
    ensures WorkerAgrees(stage, Received(w, result))
  {
    assert result.Ok? ==> Processed(Received(w, result)) == w.received;
  }

  lemma SentKeepsWorker<S, T>(stage: Stage<S, T, T>, w: Worker<S, T>, result: Result<(), SendError>)
    requires WorkerAgrees(stage, w) && w.pc.Sending?
    ensures WorkerAgrees(stage, Sent(w, result))
  {
  }

  lemma MoveKeepsWorker<S, T>(cfg: Config<S, T>, s: State<S, T>, i: nat)
    requires Shape(cfg, s) && i < |s.workers| && WorkerAgrees(cfg.stages[i], s.workers[i])
    ensures WorkerAgrees(cfg.stages[i], Moved(cfg, s, i))
  {
    var w := s.workers[i];
    if w.pc.Receive? {
      ReceivedKeepsWorker(cfg.stages[i], w, RecvAt(cfg, s, i));
    } else if w.pc.Sending? {
      SentKeepsWorker(cfg.stages[i], w, SendAt(cfg, s, i));
    } else if w.pc.InHand? {
      ProcessKeepsWorker(cfg.stages[i], w);
    } else {
      LocalKeepsWorker(cfg.stages[i], w);
    }
  }

  /** Whatever is not a step of worker `j` changes no more of it than its flags. */
  lemma OthersLeaveWorker<S, T>(cfg: Config<S, T>, s: State<S, T>, a: Action<T>, j: nat)
    requires Enabled(cfg, s, a) && j < |s.workers| && a != Work(j)
    ensures Shape(cfg, Step(cfg, s, a))
    ensures var w, w' := s.workers[j], Step(cfg, s, a).workers[j];
            w' == w.(flags := w'.flags, pending := w'.pending)
  {
  }

  lemma FlagsDoNotMatter<S, T>(stage: Stage<S, T, T>, w: Worker<S, T>, w': Worker<S, T>)
    requires WorkerAgrees(stage, w) && w' == w.(flags := w'.flags, pending := w'.pending)
    ensures WorkerAgrees(stage, w')
  {
    assert Processed(w') == Processed(w) && OnTheWay(w') == OnTheWay(w);
  }

  lemma StepKeepsWorker<S, T>(cfg: Config<S, T>, s: State<S, T>, a: Action<T>, j: nat)
    requires Enabled(cfg, s, a) && j < |s.workers| && WorkerAgrees(cfg.stages[j], s.workers[j])
    ensures WorkerAgrees(cfg.stages[j], Step(cfg, s, a).workers[j])
  {
    if a == Work(j) {
      MoveKeepsWorker(cfg, s, j);
    } else {
      OthersLeaveWorker(cfg, s, a, j);
      FlagsDoNotMatter(cfg.stages[j], s.workers[j], Step(cfg, s, a).workers[j]);
    }
  }

  // ---------- After a reset ----------

  /** What the stage has been given to process since the last reset. */
  function ProcessedSince<S, T>(w: Worker<S, T>): seq<T>
    requires w.era.received <= |Processed(w)|
  {
    Processed(w)[w.era.received..]
  }

  ghost predicate EraFits<S, T>(w: Worker<S, T>) {
    && w.era.received <= |Processed(w)| && w.era.results <= |w.results|
    && w.era.sent <= |w.sent| && w.era.failed <= w.failed
  }

  /** State and results are those of the stage run from the reset state on what came since. */
  ghost predicate RunsSince<S, T>(stage: Stage<S, T, T>, w: Worker<S, T>)
    requires EraFits(w)
  {
    && (w.stage, w.results[w.era.results..]) == Run(stage, stage.reset(w.era.stage), ProcessedSince(w))
    && (w.failed == w.era.failed ==> w.results[w.era.results..] == w.sent[w.era.sent..] + OnTheWay(w))
  }

  /** The metrics say what has become of the items since. */
  ghost predicate CountsSince<S, T>(w: Worker<S, T>)
    requires EraFits(w)
  {
    && |w.received| - w.era.received == w.metrics.input + One(w.pc.Noting?)
    && |w.sent| - w.era.sent == w.metrics.output + One(w.pc.CountOutput?)
    && w.failed - w.era.failed == w.metrics.dropped + One(w.pc.CountDropped?)
  }

  /** Once a worker has handled a reset, it works as if it had started with the state that reset gives. */
  ghost predicate EraAgrees<S, T>(stage: Stage<S, T, T>, w: Worker<S, T>) {
    w.resets > 0 ==> EraFits(w) && RunsSince(stage, w) && CountsSince(w)
  }

  lemma ResettingStartsEra<S, T>(stage: Stage<S, T, T>, w: Worker<S, T>)
    requires w.pc.Resetting?
    ensures var w' := Local(stage, w);
            && w'.stage == stage.reset(w.stage) && w'.metrics == Metrics(0, 0, 0, 0)
            && EraAgrees(stage, w') && ProcessedSince(w') == []
  {
    var w' := Local(stage, w);
    assert Processed(w') == w.received && w'.received[|w.received|..] == [];
    assert w'.results[|w.results|..] == [] && w'.sent[|w.sent|..] == [] && OnTheWay(w') == [];
  }

  lemma LocalKeepsEra<S, T>(stage: Stage<S, T, T>, w: Worker<S, T>)
    requires EraAgrees(stage, w) && !w.pc.Sending? && !w.pc.Receive? && !w.pc.InHand?
    ensures EraAgrees(stage, Local(stage, w))
  {
    if w.pc.Resetting? {
      ResettingStartsEra(stage, w);
    } else {
      var w' := Local(stage, w);
      LocalLeaves(stage, w);
      assert w'.era == w.era && w'.resets == w.resets;
      if w.resets > 0 {
        assert RunsSince(stage, w');
        LocalKeepsCounts(stage, w);
      }
    }
  }

  lemma LocalKeepsCounts<S, T>(stage: Stage<S, T, T>, w: Worker<S, T>)
    requires !w.pc.Sending? && !w.pc.Receive? && !w.pc.InHand? && !w.pc.Resetting?
    requires EraFits(w) && CountsSince(w)
    ensures EraFits(Local(stage, w)) && CountsSince(Local(stage, w))
  {
    LocalLeaves(stage, w);
  }

  lemma ProcessKeepsEra<S, T>(stage: Stage<S, T, T>, w: Worker<S, T>)
    requires EraAgrees(stage, w) && w.pc.InHand? && HoldsLast(w)
    ensures EraAgrees(stage, Process(stage, w))
  {
    if w.resets > 0 {
      ProcessRunsSince(stage, w);
      assert CountsSince(Process(stage, w));
    }
  }

  lemma SuffixSnoc<T>(xs: seq<T>, x: T, n: nat)
    requires n <= |xs|
    ensures (xs + [x])[n..] == xs[n..] + [x]
  {
  }

  lemma ProcessRunsSince<S, T>(stage: Stage<S, T, T>, w: Worker<S, T>)
    requires EraFits(w) && RunsSince(stage, w) && w.pc.InHand? && HoldsLast(w)
    ensures EraFits(Process(stage, w)) && RunsSince(stage, Process(stage, w))
  {
    var w', item := Process(stage, w), w.pc.item;
    ProcessedNext(stage, w);
    assert w'.era == w.era && w'.sent == w.sent && w'.failed == w.failed && OnTheWay(w) == [];
    ResultsNext(stage, stage.reset(w.era.stage), ProcessedSince(w), w.results[w.era.results..], w.stage, item);
    if stage.process(w.stage, item).1.Some? {
      SuffixSnoc(w.results, w'.pc.result, w.era.results);
    }
  }

  lemma ProcessedNext<S, T>(stage: Stage<S, T, T>, w: Worker<S, T>)
    requires w.pc.InHand? && HoldsLast(w) && w.era.received <= |Processed(w)|
    ensures Process(stage, w).era == w.era && w.era.received <= |Processed(Process(stage, w))|
    ensures ProcessedSince(Process(stage, w)) == ProcessedSince(w) + [w.pc.item]
  {
    assert w.received == Processed(w) + [w.pc.item] && Processed(Process(stage, w)) == w.received;
    SuffixSnoc(Processed(w), w.pc.item, w.era.received);
  }

  lemma ResultsNext<S, T>(stage: Stage<S, T, T>, start: S, given: seq<T>, made: seq<T>, state: S, x: T)
    requires (state, made) == Run(stage, start, given)
    ensures var (state', result) := stage.process(state, x);
            Run(stage, start, given + [x]) == (state', if result.Some? then made + [result.value] else made)
  {
    RunSnoc(stage, start, given, x);
  }

  lemma ReceivedKeepsEra<S, T>(stage: Stage<S, T, T>, w: Worker<S, T>, result: Result<T, RecvError>)
    requires EraAgrees(stage, w) && w.pc.Receive?
    ensures EraAgrees(stage, Received(w, result))
  {
    var w' := Received(w, result);
    assert Processed(w') == Processed(w) && OnTheWay(w') == OnTheWay(w);
  }

  lemma SentKeepsEra<S, T>(stage: Stage<S, T, T>, w: Worker<S, T>, result: Result<(), SendError>)
    requires EraAgrees(stage, w) && w.pc.Sending?
    ensures EraAgrees(stage, Sent(w, result))
  {
    var w' := Sent(w, result);
    assert Processed(w') == Processed(w);
    if w.resets > 0 && result.Ok? {
      SuffixSnoc(w.sent, w.pc.result, w.era.sent);
    }
  }

  lemma MoveKeepsEra<S, T>(cfg: Config<S, T>, s: State<S, T>, i: nat)
    requires Shape(cfg, s) && i < |s.workers|
    requires EraAgrees(cfg.stages[i], s.workers[i]) && HoldsLast(s.workers[i])
    ensures EraAgrees(cfg.stages[i], Moved(cfg, s, i))
  {
    var w := s.workers[i];
    if w.pc.Receive? {
      ReceivedKeepsEra(cfg.stages[i], w, RecvAt(cfg, s, i));
    } else if w.pc.Sending? {
      SentKeepsEra(cfg.stages[i], w, SendAt(cfg, s, i));
    } else if w.pc.InHand? {
      ProcessKeepsEra(cfg.stages[i], w);
    } else {
      LocalKeepsEra(cfg.stages[i], w);
    }
  }

  lemma FlagsKeepEra<S, T>(stage: Stage<S, T, T>, w: Worker<S, T>, w': Worker<S, T>)
    requires EraAgrees(stage, w) && w' == w.(flags := w'.flags, pending := w'.pending)
    ensures EraAgrees(stage, w')
  {
    assert Processed(w') == Processed(w) && OnTheWay(w') == OnTheWay(w);
  }

  lemma StepKeepsEra<S, T>(cfg: Config<S, T>, s: State<S, T>, a: Action<T>, j: nat)
    requires Enabled(cfg, s, a) && j < |s.workers|
    requires EraAgrees(cfg.stages[j], s.workers[j]) && HoldsLast(s.workers[j])
    ensures EraAgrees(cfg.stages[j], Step(cfg, s, a).workers[j])
  {
    if a == Work(j) {
      MoveKeepsEra(cfg, s, j);
    } else {
      OthersLeaveWorker(cfg, s, a, j);
      FlagsKeepEra(cfg.stages[j], s.workers[j], Step(cfg, s, a).workers[j]);
    }
  }

  // ---------- Leaving the loop ----------

  predicate HasLeft<T>(pc: Pc<T>) {
    pc.Leaving? || pc.LeftOutput? || pc.Stopped?
  }

  /** Who leaves without having been told to leaves nothing behind, now or later. */
  ghost predicate LeftDrained<S, T>(s: State<S, T>, i: nat)
    requires i < |s.workers| && i < |s.queues|
  {
    HasLeft(s.workers[i].pc) && !s.workers[i].flags.shutdown ==> s.queues[i] == [] && !SenderAlive(s, i)
  }

  lemma ShutdownStays(f: C.Flags, store: C.Store)
    ensures f.shutdown ==> C.Apply(f, store).shutdown
  {
  }

  lemma LocalFlags<S, T>(stage: Stage<S, T, T>, w: Worker<S, T>)
    ensures Local(stage, w).flags.shutdown == w.flags.shutdown
    ensures HasLeft(w.pc) ==> HasLeft(Local(stage, w).pc)
    ensures HasLeft(Local(stage, w).pc) ==> HasLeft(w.pc) || w.flags.shutdown
  {
  }

  lemma MovedFlags<S, T>(cfg: Config<S, T>, s: State<S, T>, i: nat)
    requires Shape(cfg, s) && i < |s.workers|
    ensures Moved(cfg, s, i).flags.shutdown == s.workers[i].flags.shutdown
    ensures HasLeft(s.workers[i].pc) ==> HasLeft(Moved(cfg, s, i).pc)
    ensures HasLeft(Moved(cfg, s, i).pc) && !s.workers[i].flags.shutdown ==>
              HasLeft(s.workers[i].pc) || (s.queues[i] == [] && !SenderAlive(s, i))
  {
    var w := s.workers[i];
    if !w.pc.Receive? && !w.pc.Sending? && !w.pc.InHand? {
      LocalFlags(cfg.stages[i], w);
    }
  }

  /** A channel whose sender is gone and that is empty stays so. */
  lemma DeadLinkStays<S, T>(cfg: Config<S, T>, s: State<S, T>, a: Action<T>, k: nat)
    requires Enabled(cfg, s, a) && k < |s.workers| && !SenderAlive(s, k) && s.queues[k] == []
    ensures !SenderAlive(Step(cfg, s, a), k) && Step(cfg, s, a).queues[k] == []
  {
    DeadSenderStays(cfg, s, a, k);
    DeadLinkOnlyShrinks(cfg, s, a, k);
  }

  lemma DeadSenderStays<S, T>(cfg: Config<S, T>, s: State<S, T>, a: Action<T>, k: nat)
    requires Enabled(cfg, s, a) && k < |s.workers| && !SenderAlive(s, k)
    ensures Shape(cfg, Step(cfg, s, a)) && !SenderAlive(Step(cfg, s, a), k)
  {
    if k > 0 && a != Work(k - 1) {
      OthersLeaveWorker(cfg, s, a, k - 1);
    }
  }

  /** Nobody but worker `k` changes its queue once the sender is gone. */
  lemma DeadLinkOnlyShrinks<S, T>(cfg: Config<S, T>, s: State<S, T>, a: Action<T>, k: nat)
    requires Enabled(cfg, s, a) && k < |s.workers| && !SenderAlive(s, k)
    ensures Shape(cfg, Step(cfg, s, a))
    ensures Step(cfg, s, a).queues[k]
            == if a == Work(k) && s.workers[k].pc.Receive? && s.queues[k] != [] then s.queues[k][1..] else s.queues[k]
  {
  }

  lemma StepKeepsDrained<S, T>(cfg: Config<S, T>, s: State<S, T>, a: Action<T>, j: nat)
    requires Enabled(cfg, s, a) && j < |s.workers| && LeftDrained(s, j)
    ensures LeftDrained(Step(cfg, s, a), j)
  {
    if s.queues[j] == [] && !SenderAlive(s, j) {
      DeadLinkStays(cfg, s, a, j);
    } else {
      match a
      case Work(i) => MovedFlags(cfg, s, j);
      case BeginCommand(_, c) => ShutdownStays(s.workers[j].flags, C.StoreCommand(c));
      case FinishCommand(_, c) => ShutdownStays(s.workers[j].flags, C.StoreFlag(c));
      case _ => {}
    }
  }

  lemma StepKeepsShape<S, T>(cfg: Config<S, T>, s: State<S, T>, a: Action<T>)
    requires Enabled(cfg, s, a)
    ensures Shape(cfg, Step(cfg, s, a))
  {
  }

  // ---------- Reachable states ----------

  ghost predicate Inv<S, T>(cfg: Config<S, T>, s: State<S, T>) {
    && LinksAgree(cfg, s)
    && (forall i: nat :: i < |s.workers| ==> WorkerAgrees(cfg.stages[i], s.workers[i]))
    && (forall i: nat :: i < |s.workers| ==> LeftDrained(s, i))
    && (forall i: nat :: i < |s.workers| ==> EraAgrees(cfg.stages[i], s.workers[i]))
  }

  lemma StepKeepsInv<S, T>(cfg: Config<S, T>, s: State<S, T>, a: Action<T>)
    requires Inv(cfg, s) && Enabled(cfg, s, a)
    ensures Inv(cfg, Step(cfg, s, a))
  {
    var s' := Step(cfg, s, a);
    StepKeepsShape(cfg, s, a);
    forall k: nat | k <= |s'.workers| ensures LinkAgrees(cfg, s', k) {
      StepKeepsLink(cfg, s, a, k);
    }
    forall i: nat | i < |s'.workers|
      ensures WorkerAgrees(cfg.stages[i], s'.workers[i]) && LeftDrained(s', i)
      ensures EraAgrees(cfg.stages[i], s'.workers[i])
    {
      StepKeepsWorker(cfg, s, a, i);
      StepKeepsEra(cfg, s, a, i);
      StepKeepsDrained(cfg, s, a, i);
    }
  }

  lemma {:induction false} ReachableInv<S, T>(cfg: Config<S, T>, schedule: seq<Action<T>>)
    requires IsRun(cfg, Init(cfg), schedule)
    ensures Inv(cfg, After(cfg, Init(cfg), schedule))
  {
    if schedule != [] {
      ReachableInv(cfg, schedule[..|schedule| - 1]);
      StepKeepsInv(cfg, After(cfg, Init(cfg), schedule[..|schedule| - 1]), schedule[|schedule| - 1]);
    }
  }
}
