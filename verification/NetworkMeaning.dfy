/** What the threaded pipeline delivers, whatever the schedule. */
module NetworkMeaning {
  import opened Wrappers
  import opened Stages
  import opened Channel
  import opened Subsequences
  import opened Network

  /** What the first `k` stages make of a sequence of inputs, one after the other. */
  function Meaning<S, T>(cfg: Config<S, T>, k: nat, inputs: seq<T>): seq<T>
    requires k <= |cfg.stages|
  {
    if k == 0 then inputs
    else Run(cfg.stages[k - 1], cfg.stages[k - 1].initial, Meaning(cfg, k - 1, inputs)).1
  }

  /** The four stages of the pipeline mean what the single-threaded chain of them computes. */
  lemma FourStagesAreAChain<S, T>(cfg: Config<S, T>, inputs: seq<T>)
    requires |cfg.stages| == 4
    ensures var chain := Chain(Chain(Chain(cfg.stages[0], cfg.stages[1]), cfg.stages[2]), cfg.stages[3]);
            Meaning(cfg, 4, inputs) == Run(chain, chain.initial, inputs).1
  {
    var a, b, c, d := cfg.stages[0], cfg.stages[1], cfg.stages[2], cfg.stages[3];
    var ab := Chain(a, b);
    var abc := Chain(ab, c);
    ChainRuns(a, b, ab.initial, inputs);
    ChainRuns(ab, c, abc.initial, inputs);
    ChainRuns(abc, d, (abc.initial, d.initial), inputs);
    assert Meaning(cfg, 1, inputs) == Run(a, a.initial, inputs).1 by {
      assert Meaning(cfg, 0, inputs) == inputs;
    }
    assert Meaning(cfg, 2, inputs) == Run(ab, ab.initial, inputs).1;
    assert Meaning(cfg, 3, inputs) == Run(abc, abc.initial, inputs).1;
  }

  // ---------- Schedule independence ----------

  /** So far no stage has been reset and no send has failed. */
  ghost predicate Undisturbed<S, T>(s: State<S, T>) {
    forall i: nat :: i < |s.workers| ==> s.workers[i].resets == 0 && s.workers[i].failed == 0
  }

  lemma SentIsPrefix<S, T>(stage: Stage<S, T, T>, w: Worker<S, T>, fed: seq<T>, meant: seq<T>)
    requires WorkerAgrees(stage, w) && w.resets == 0 && w.failed == 0
    requires w.received <= fed <= meant
    ensures w.sent <= Run(stage, stage.initial, meant).1
  {
    assert Processed(w) <= meant;
    RunIsMonotone(stage, stage.initial, Processed(w), meant);
  }

  lemma AtWorker<S, T>(cfg: Config<S, T>, s: State<S, T>, i: nat)
    requires Inv(cfg, s) && i < |s.workers|
    ensures i < |cfg.stages| && WorkerAgrees(cfg.stages[i], s.workers[i])
    ensures s.workers[i].received <= Into(s, i)
  {
    assert LinkAgrees(cfg, s, i);
  }

  lemma NextIsPrefix<S, T>(cfg: Config<S, T>, s: State<S, T>, i: nat)
    requires Inv(cfg, s) && Undisturbed(s) && i < |s.workers| == |cfg.stages|
    requires Into(s, i) <= Meaning(cfg, i, s.accepted)
    ensures Into(s, i + 1) <= Meaning(cfg, i + 1, s.accepted)
  {
    AtWorker(cfg, s, i);
    var w, fed := s.workers[i], Into(s, i);
    assert w.resets == 0 && w.failed == 0 && Into(s, i + 1) == w.sent;
    SentIsPrefix(cfg.stages[i], w, fed, Meaning(cfg, i, s.accepted));
  }

  lemma {:induction false} IntoIsPrefix<S, T>(cfg: Config<S, T>, s: State<S, T>, k: nat)
    requires Inv(cfg, s) && Undisturbed(s) && k <= |s.workers|
    ensures Into(s, k) <= Meaning(cfg, k, s.accepted)
    decreases k
  {
    assert |s.workers| == |cfg.stages|;
    if k == 0 {
      assert Into(s, k) == s.accepted == Meaning(cfg, k, s.accepted);
    } else {
      IntoIsPrefix(cfg, s, k - 1);
      NextIsPrefix(cfg, s, k - 1);
    }
  }

  /**
   * Whatever the schedule and the capacities, as long as no stage was reset and no send failed,
   * the output delivered is a prefix of what the stages compute one after the other.
   */
  lemma DeliveredIsPrefix<S, T>(cfg: Config<S, T>, schedule: seq<Action<T>>)
    requires IsRun(cfg, Init(cfg), schedule) && Undisturbed(After(cfg, Init(cfg), schedule))
    ensures var s := After(cfg, Init(cfg), schedule);
            s.delivered <= Meaning(cfg, |cfg.stages|, s.accepted)
  {
    ReachableInv(cfg, schedule);
    var s := After(cfg, Init(cfg), schedule);
    IntoIsPrefix(cfg, s, |cfg.stages|);
    assert LinkAgrees(cfg, s, |cfg.stages|);
  }

  predicate EmptyHanded<T>(pc: Pc<T>) {
    !pc.Noting? && !pc.InHand? && !pc.Sending?
  }

  /** Nothing is queued in front of the first `k` workers, and none of them holds an item. */
  ghost predicate Quiet<S, T>(s: State<S, T>, k: nat) {
    k <= |s.workers| && k <= |s.queues| &&
    forall i: nat :: i < k ==> s.queues[i] == [] && EmptyHanded(s.workers[i].pc)
  }

  lemma {:induction false} IntoIsWhole<S, T>(cfg: Config<S, T>, s: State<S, T>, k: nat)
    requires Inv(cfg, s) && Undisturbed(s) && Quiet(s, k)
    ensures Into(s, k) == Meaning(cfg, k, s.accepted)
    decreases k
  {
    if k > 0 {
      IntoIsWhole(cfg, s, k - 1);
      var w := s.workers[k - 1];
      assert LinkAgrees(cfg, s, k - 1) && WorkerAgrees(cfg.stages[k - 1], w);
      assert Into(s, k - 1) == w.received == Processed(w);
      assert w.results == w.sent;
    }
  }

  /** Once all queues are empty and no worker holds an item, everything has been delivered. */
  lemma QuietDeliveredAll<S, T>(cfg: Config<S, T>, schedule: seq<Action<T>>)
    requires IsRun(cfg, Init(cfg), schedule) && Undisturbed(After(cfg, Init(cfg), schedule))
    requires var s := After(cfg, Init(cfg), schedule);
             Quiet(s, |cfg.stages|) && s.queues[|cfg.stages|] == []
    ensures var s := After(cfg, Init(cfg), schedule);
            s.delivered == Meaning(cfg, |cfg.stages|, s.accepted)
  {
    ReachableInv(cfg, schedule);
    var s := After(cfg, Init(cfg), schedule);
    IntoIsWhole(cfg, s, |cfg.stages|);
    assert LinkAgrees(cfg, s, |cfg.stages|);
  }

  /**
   * If the workers have all stopped because the input was closed, and not because of a shutdown
   * request, then nothing was left behind: once the output is drained it is complete.
   */
  lemma ClosingLosesNothing<S, T>(cfg: Config<S, T>, schedule: seq<Action<T>>)
    requires IsRun(cfg, Init(cfg), schedule) && Undisturbed(After(cfg, Init(cfg), schedule))
    requires var s := After(cfg, Init(cfg), schedule);
             forall i: nat :: i < |s.workers| ==> s.workers[i].pc.Stopped? && !s.workers[i].flags.shutdown
    requires var s := After(cfg, Init(cfg), schedule); |s.queues| == |cfg.stages| + 1 && s.queues[|cfg.stages|] == []
    ensures var s := After(cfg, Init(cfg), schedule);
            s.delivered == Meaning(cfg, |cfg.stages|, s.accepted)
  {
    ReachableInv(cfg, schedule);
    var s := After(cfg, Init(cfg), schedule);
    forall i: nat | i < |s.workers| ensures s.queues[i] == [] {
      assert LeftDrained(s, i);
    }
    QuietDeliveredAll(cfg, schedule);
  }

  // ---------- Conservation ----------

  /** A worker whose item is neither passed on nor counted as filtered or dropped yet. */
  predicate Holds<T>(pc: Pc<T>) {
    pc.Noting? || pc.InHand? || pc.Sending? || pc.CountDropped? || pc.CountFiltered?
  }

  /** What has entered the first `k` stages and not left them: queued, in hand, filtered or dropped. */
  ghost function Absorbed<S, T>(s: State<S, T>, k: nat): nat
    requires k <= |s.workers| && k <= |s.queues|
  {
    if k == 0 then 0
    else
      var w := s.workers[k - 1];
      Absorbed(s, k - 1) + |s.queues[k - 1]| + One(Holds(w.pc)) + w.metrics.filtered + w.metrics.dropped
  }

  lemma ReceivedIsCounted<S, T>(stage: Stage<S, T, T>, w: Worker<S, T>)
    requires WorkerAgrees(stage, w) && w.resets == 0
    ensures |w.received| == |w.sent| + One(Holds(w.pc)) + w.metrics.filtered + w.metrics.dropped
  {
  }

  lemma IntoIsQueued<S, T>(cfg: Config<S, T>, s: State<S, T>, i: nat)
    requires Inv(cfg, s) && i < |s.workers|
    ensures |s.queues| == |s.workers| + 1 == |cfg.stages| + 1 && WorkerAgrees(cfg.stages[i], s.workers[i])
    ensures |Into(s, i)| == |s.queues[i]| + |s.workers[i].received|
  {
    assert LinkAgrees(cfg, s, i);
  }

  /** What entered stage `i` is queued for it or was received, and what it received is counted. */
  ghost predicate IsCounted<S, T>(s: State<S, T>, i: nat)
    requires i < |s.workers| && i < |s.queues|
  {
    var w := s.workers[i];
    && |Into(s, i)| == |s.queues[i]| + |w.received|
    && |w.received| == |w.sent| + One(Holds(w.pc)) + w.metrics.filtered + w.metrics.dropped
  }

  lemma {:induction false} Telescope<S, T>(s: State<S, T>, k: nat)
    requires k <= |s.workers| <= |s.queues| && forall i: nat :: i < k ==> IsCounted(s, i)
    ensures |s.accepted| == |Into(s, k)| + Absorbed(s, k)
    decreases k
  {
    if k > 0 {
      Telescope(s, k - 1);
      assert IsCounted(s, k - 1);
    }
  }

  /**
   * Conservation at every reachable state, with drops, without resets: each accepted input is
   * delivered, queued (even if abandoned), in hand, filtered by a stage or dropped.
   */
  lemma ItemsAreConserved<S, T>(cfg: Config<S, T>, schedule: seq<Action<T>>)
    requires IsRun(cfg, Init(cfg), schedule)
    requires var s := After(cfg, Init(cfg), schedule);
             forall i: nat :: i < |s.workers| ==> s.workers[i].resets == 0
    ensures var s := After(cfg, Init(cfg), schedule);
            && Shape(cfg, s)
            && |s.accepted| == |s.delivered| + |s.queues[|cfg.stages|]| + Absorbed(s, |cfg.stages|)
  {
    ReachableInv(cfg, schedule);
    var s := After(cfg, Init(cfg), schedule);
    forall i: nat | i < |s.workers| ensures i < |s.queues| && IsCounted(s, i) {
      IntoIsQueued(cfg, s, i);
      ReceivedIsCounted(cfg.stages[i], s.workers[i]);
    }
    Telescope(s, |cfg.stages|);
    assert LinkAgrees(cfg, s, |cfg.stages|);
  }

  /** What `k` stages have absorbed over their whole lives, resets or not. */
  ghost function AbsorbedEver<S, T>(s: State<S, T>, k: nat): int
    requires k <= |s.workers| && k <= |s.queues|
  {
    if k == 0 then 0
    else
      var w := s.workers[k - 1];
      AbsorbedEver(s, k - 1) + |s.queues[k - 1]| + Held(w) + FilteredEver(w) + w.failed
  }

  /** An item received and not processed, or a result processed and not sent. */
  function Held<S, T>(w: Worker<S, T>): nat {
    One(w.pc.Noting? || w.pc.InHand? || w.pc.Sending?)
  }

  /** The items that the stage made no result of. */
  function FilteredEver<S, T>(w: Worker<S, T>): int {
    |Processed(w)| - |w.results|
  }

  lemma ReceivedIsAccounted<S, T>(stage: Stage<S, T, T>, w: Worker<S, T>)
    requires WorkerAgrees(stage, w)
    ensures FilteredEver(w) >= 0
    ensures |w.received| == |w.sent| + Held(w) + FilteredEver(w) + w.failed
  {
  }

  ghost predicate IsAccounted<S, T>(s: State<S, T>, i: nat)
    requires i < |s.workers| && i < |s.queues|
  {
    var w := s.workers[i];
    && |Into(s, i)| == |s.queues[i]| + |w.received|
    && |w.received| == |w.sent| + Held(w) + FilteredEver(w) + w.failed
  }

  lemma {:induction false} TelescopeEver<S, T>(s: State<S, T>, k: nat)
    requires k <= |s.workers| <= |s.queues| && forall i: nat :: i < k ==> IsAccounted(s, i)
    ensures |s.accepted| == |Into(s, k)| + AbsorbedEver(s, k)
    decreases k
  {
    if k > 0 {
      TelescopeEver(s, k - 1);
      assert IsAccounted(s, k - 1);
    }
  }

  /**
   * Conservation at every reachable state, under any drops and resets: each accepted input is
   * delivered, queued (even if abandoned), in hand, or was filtered by a stage or dropped.
   */
  lemma ItemsAreAlwaysConserved<S, T>(cfg: Config<S, T>, schedule: seq<Action<T>>)
    requires IsRun(cfg, Init(cfg), schedule)
    ensures var s := After(cfg, Init(cfg), schedule);
            && Shape(cfg, s)
            && |s.accepted| == |s.delivered| + |s.queues[|cfg.stages|]| + AbsorbedEver(s, |cfg.stages|)
            && forall i: nat :: i < |s.workers| ==> FilteredEver(s.workers[i]) >= 0
  {
    ReachableInv(cfg, schedule);
    var s := After(cfg, Init(cfg), schedule);
    forall i: nat | i < |s.workers|
      ensures i < |s.queues| && IsAccounted(s, i) && FilteredEver(s.workers[i]) >= 0
    {
      IntoIsQueued(cfg, s, i);
      ReceivedIsAccounted(cfg.stages[i], s.workers[i]);
    }
    TelescopeEver(s, |cfg.stages|);
    assert LinkAgrees(cfg, s, |cfg.stages|);
  }

  /** The counters of every stage add up at every moment, resets or not, and no queue overflows. */
  lemma {:induction false} CountersAddUp<S, T>(cfg: Config<S, T>, schedule: seq<Action<T>>, i: nat)
    requires IsRun(cfg, Init(cfg), schedule) && i < |cfg.stages|
    ensures var s := After(cfg, Init(cfg), schedule);
            && Shape(cfg, s)
            && BooksBalance(s.workers[i])
            && |s.queues[i]| <= cfg.capacity && |s.queues[i + 1]| <= cfg.capacity
  {
    ReachableInv(cfg, schedule);
    var s := After(cfg, Init(cfg), schedule);
    assert WorkerAgrees(cfg.stages[i], s.workers[i]);
    assert LinkAgrees(cfg, s, i) && LinkAgrees(cfg, s, i + 1);
  }

  // ---------- Stages without state ----------

  ghost predicate AllCompute<S(!new), T(!new)>(cfg: Config<S, T>, fs: seq<T -> Option<T>>) {
    |fs| == |cfg.stages| && forall i: nat :: i < |fs| ==> Computes(cfg.stages[i], fs[i])
  }

  /** The filter-map that the first `k` functions make up. */
  function Composed<T>(fs: seq<T -> Option<T>>, k: nat): T -> Option<T>
    requires k <= |fs|
  {
    if k == 0 then (x: T) => Some(x) else Then(Composed(fs, k - 1), fs[k - 1])
  }

  ghost predicate StatelessAgrees<S, T>(f: T -> Option<T>, w: Worker<S, T>) {
    HoldsLast(w) && IsSubseq(w.sent + OnTheWay(w), Collect(f, Processed(w)))
  }

  lemma CollectSnoc<I, O>(f: I -> Option<O>, xs: seq<I>, x: I)
    ensures Collect(f, xs + [x]) == if f(x).Some? then Collect(f, xs) + [f(x).value] else Collect(f, xs)
  {
    assert (xs + [x])[..|xs|] == xs;
  }

  lemma ProcessKeepsStateless<S(!new), T(!new)>(stage: Stage<S, T, T>, f: T -> Option<T>, w: Worker<S, T>)
    requires Computes(stage, f) && StatelessAgrees(f, w) && w.pc.InHand?
    ensures StatelessAgrees(f, Process(stage, w))
  {
    var x, w' := w.pc.item, Process(stage, w);
    assert stage.process(w.stage, x).1 == f(x);
    assert w.received == Processed(w) + [x] && Processed(w') == w.received && w'.sent == w.sent;
    assert w.sent + OnTheWay(w) == w.sent;
    CollectSnoc(f, Processed(w), x);
    if f(x).Some? {
      KeepLast(w.sent, Collect(f, Processed(w)), f(x).value);
      assert OnTheWay(w') == [f(x).value];
    } else {
      assert w'.sent + OnTheWay(w') == w.sent;
    }
  }

  lemma SentKeepsStateless<S, T>(f: T -> Option<T>, w: Worker<S, T>, result: Result<(), SendError>)
    requires StatelessAgrees(f, w) && w.pc.Sending?
    ensures StatelessAgrees(f, Sent(w, result))
  {
    var a, w' := w.sent + [w.pc.result], Sent(w, result);
    assert w.sent + OnTheWay(w) == a && Processed(w') == Processed(w);
    if result.Ok? {
      assert w'.sent + OnTheWay(w') == a;
    } else {
      WithoutLast(a, Collect(f, Processed(w)));
      assert a[..|a| - 1] == w.sent && w'.sent + OnTheWay(w') == w.sent;
    }
  }

  lemma QuietKeepsStateless<S, T>(f: T -> Option<T>, w: Worker<S, T>, w': Worker<S, T>)
    requires StatelessAgrees(f, w) && HoldsLast(w')
    requires Processed(w') == Processed(w) && w'.sent == w.sent && OnTheWay(w') == OnTheWay(w)
    ensures StatelessAgrees(f, w')
  {
  }

  lemma ReceivedKeepsStateless<S, T>(f: T -> Option<T>, w: Worker<S, T>, result: Result<T, RecvError>)
    requires StatelessAgrees(f, w) && w.pc.Receive?
    ensures StatelessAgrees(f, Received(w, result))
  {
    QuietKeepsStateless(f, w, Received(w, result));
  }

  lemma LocalKeepsStateless<S, T>(stage: Stage<S, T, T>, f: T -> Option<T>, w: Worker<S, T>)
    requires StatelessAgrees(f, w) && !w.pc.Receive? && !w.pc.Sending? && !w.pc.InHand?
    ensures StatelessAgrees(f, Local(stage, w))
  {
    LocalLeaves(stage, w);
    QuietKeepsStateless(f, w, Local(stage, w));
  }

  lemma MoveKeepsStateless<S(!new), T(!new)>(cfg: Config<S, T>, f: T -> Option<T>, s: State<S, T>, i: nat)
    requires Shape(cfg, s) && i < |s.workers| && Computes(cfg.stages[i], f) && StatelessAgrees(f, s.workers[i])
    ensures StatelessAgrees(f, Moved(cfg, s, i))
  {
    var w := s.workers[i];
    if w.pc.InHand? {
      ProcessKeepsStateless(cfg.stages[i], f, w);
    } else if w.pc.Sending? {
      SentKeepsStateless(f, w, SendAt(cfg, s, i));
    } else if w.pc.Receive? {
      ReceivedKeepsStateless(f, w, RecvAt(cfg, s, i));
    } else {
      LocalKeepsStateless(cfg.stages[i], f, w);
    }
  }

  lemma StepKeepsStateless<S(!new), T(!new)>(
      cfg: Config<S, T>, f: T -> Option<T>, s: State<S, T>, a: Action<T>, j: nat)
    requires Enabled(cfg, s, a) && j < |s.workers|
    requires Computes(cfg.stages[j], f) && StatelessAgrees(f, s.workers[j])
    ensures Shape(cfg, Step(cfg, s, a)) && StatelessAgrees(f, Step(cfg, s, a).workers[j])
  {
    var w, w' := s.workers[j], Step(cfg, s, a).workers[j];
    if a == Work(j) {
      MoveKeepsStateless(cfg, f, s, j);
    } else {
      OthersLeaveWorker(cfg, s, a, j);
      QuietKeepsStateless(f, w, w');
    }
  }

  lemma {:induction false} ReachableStateless<S(!new), T(!new)>(
      cfg: Config<S, T>, fs: seq<T -> Option<T>>, schedule: seq<Action<T>>, i: nat)
    requires IsRun(cfg, Init(cfg), schedule) && AllCompute(cfg, fs) && i < |fs|
    ensures Shape(cfg, After(cfg, Init(cfg), schedule))
    ensures StatelessAgrees(fs[i], After(cfg, Init(cfg), schedule).workers[i])
  {
    if schedule != [] {
      var before := schedule[..|schedule| - 1];
      ReachableStateless(cfg, fs, before, i);
      StepKeepsStateless(cfg, fs[i], After(cfg, Init(cfg), before), schedule[|schedule| - 1], i);
    }
  }

  lemma SentIsSubseq<S, T>(f: T -> Option<T>, w: Worker<S, T>, fed: seq<T>, source: seq<T>)
    requires StatelessAgrees(f, w) && w.received <= fed && IsSubseq(fed, source)
    ensures IsSubseq(w.sent, Collect(f, source))
  {
    PrefixIsSubseq(w.sent, w.sent + OnTheWay(w));
    SubseqTransitive(w.sent, w.sent + OnTheWay(w), Collect(f, Processed(w)));
    PrefixIsSubseq(Processed(w), fed);
    SubseqTransitive(Processed(w), fed, source);
    CollectKeepsSubseq(f, Processed(w), source);
    SubseqTransitive(w.sent, Collect(f, Processed(w)), Collect(f, source));
  }

  lemma {:induction false} IntoIsSubseq<S, T>(cfg: Config<S, T>, fs: seq<T -> Option<T>>, s: State<S, T>, k: nat)
    requires LinksAgree(cfg, s) && |fs| == |s.workers| && k <= |fs|
    requires forall i: nat :: i < |fs| ==> StatelessAgrees(fs[i], s.workers[i])
    ensures IsSubseq(Into(s, k), Collect(Composed(fs, k), s.accepted))
    decreases k
  {
    if k == 0 {
      CollectAll(s.accepted, Composed(fs, 0));
      PrefixIsSubseq(s.accepted, s.accepted);
    } else {
      IntoIsSubseq(cfg, fs, s, k - 1);
      var w, f, g, fed := s.workers[k - 1], fs[k - 1], Composed(fs, k - 1), Into(s, k - 1);
      assert LinkAgrees(cfg, s, k - 1);
      assert w.received <= fed;
      SentIsSubseq(f, w, fed, Collect(g, s.accepted));
      CollectCompose(g, f, s.accepted);
    }
  }

  lemma {:induction false} CollectAll<T>(xs: seq<T>, f: T -> Option<T>)
    requires forall i :: 0 <= i < |xs| ==> f(xs[i]) == Some(xs[i])
    ensures Collect(f, xs) == xs
  {
    if xs != [] {
      CollectAll(xs[..|xs| - 1], f);
    }
  }

  /**
   * With stages that keep no state, under any drops, resets, pauses and shutdowns, the output
   * delivered is an order-preserving subsequence of the composed filter-map of the inputs.
   */
  lemma DeliveredIsSubsequence<S(!new), T(!new)>(
      cfg: Config<S, T>, fs: seq<T -> Option<T>>, schedule: seq<Action<T>>)
    requires IsRun(cfg, Init(cfg), schedule) && AllCompute(cfg, fs)
    ensures var s := After(cfg, Init(cfg), schedule);
            IsSubseq(s.delivered, Collect(Composed(fs, |fs|), s.accepted))
  {
    ReachableInv(cfg, schedule);
    var s := After(cfg, Init(cfg), schedule);
    forall i: nat | i < |fs| ensures StatelessAgrees(fs[i], s.workers[i]) {
      ReachableStateless(cfg, fs, schedule, i);
    }
    IntoIsSubseq(cfg, fs, s, |fs|);
    assert LinkAgrees(cfg, s, |fs|);
    PrefixIsSubseq(s.delivered, Into(s, |fs|));
    SubseqTransitive(s.delivered, Into(s, |fs|), Collect(Composed(fs, |fs|), s.accepted));
  }

  // ---------- Four stages without state ----------

  lemma FourComposed<T>(fs: seq<T -> Option<T>>, xs: seq<T>)
    requires |fs| == 4
    ensures Collect(Composed(fs, 4), xs) == Collect(Then(Then(Then(fs[0], fs[1]), fs[2]), fs[3]), xs)
  {
    forall i | 0 <= i < |xs|
      ensures Composed(fs, 4)(xs[i]) == Then(Then(Then(fs[0], fs[1]), fs[2]), fs[3])(xs[i])
    {
      assert Composed(fs, 1)(xs[i]) == fs[0](xs[i]) by {
        assert Composed(fs, 0)(xs[i]) == Some(xs[i]);
      }
      assert Composed(fs, 2)(xs[i]) == Then(fs[0], fs[1])(xs[i]);
      assert Composed(fs, 3)(xs[i]) == Then(Then(fs[0], fs[1]), fs[2])(xs[i]);
    }
    CollectPointwise(Composed(fs, 4), Then(Then(Then(fs[0], fs[1]), fs[2]), fs[3]), xs);
  }

  /**
   * For four stages without state, drops, resets, pauses and shutdowns only thin the output out:
   * it is a subsequence of what the single-threaded chain makes of the accepted inputs.
   */
  lemma DisturbancesOnlyThinOut<S(!new), T(!new)>(
      cfg: Config<S, T>, fs: seq<T -> Option<T>>, schedule: seq<Action<T>>)
    requires IsRun(cfg, Init(cfg), schedule) && AllCompute(cfg, fs) && |fs| == 4
    ensures var chain := Chain(Chain(Chain(cfg.stages[0], cfg.stages[1]), cfg.stages[2]), cfg.stages[3]);
            var s := After(cfg, Init(cfg), schedule);
            IsSubseq(s.delivered, Run(chain, chain.initial, s.accepted).1)
  {
    var a, b, c, d := cfg.stages[0], cfg.stages[1], cfg.stages[2], cfg.stages[3];
    var s := After(cfg, Init(cfg), schedule);
    ChainComputes(a, b, fs[0], fs[1]);
    ChainComputes(Chain(a, b), c, Then(fs[0], fs[1]), fs[2]);
    ChainComputes(Chain(Chain(a, b), c), d, Then(Then(fs[0], fs[1]), fs[2]), fs[3]);
    var chain := Chain(Chain(Chain(a, b), c), d);
    StatelessRun(chain, Then(Then(Then(fs[0], fs[1]), fs[2]), fs[3]), chain.initial, s.accepted);
    FourComposed(fs, s.accepted);
    DeliveredIsSubsequence(cfg, fs, schedule);
  }

  /** A pipeline that passes on, filters, maps and passes on, under any schedule. */
  lemma FilterThenMap<T(!new)>(cfg: Config<(), T>, p: T -> bool, g: T -> T, schedule: seq<Action<T>>)
    requires cfg.stages == [Identity<T>(), Filter(p), Map(g), Identity<T>()]
    requires IsRun(cfg, Init(cfg), schedule)
    ensures var s := After(cfg, Init(cfg), schedule);
            IsSubseq(s.delivered, Collect((x: T) => if p(x) then Some(g(x)) else None, s.accepted))
  {
    var fs := [Passing<T>(), Keeping(p), Wrapping(g), Passing<T>()];
    var f := (x: T) => if p(x) then Some(g(x)) else None;
    var s := After(cfg, Init(cfg), schedule);
    CombinatorsCompute(Keeping(p), g, p);
    DeliveredIsSubsequence(cfg, fs, schedule);
    FourComposed(fs, s.accepted);
    CollectPointwise(Then(Then(Then(fs[0], fs[1]), fs[2]), fs[3]), f, s.accepted);
  }
}
