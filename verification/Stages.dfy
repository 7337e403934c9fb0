/** Stages and their single-threaded composition: what a pipeline is meant to compute. */
module Stages {
  import opened Wrappers

  /** A stage with its state made explicit; `tick` runs when no input is available. */
  datatype Stage<!S, !I, !O> = Stage(
    initial: S,
    process: (S, I) -> (S, Option<O>),
    tick: S -> (S, Option<O>),
    reset: S -> S)

  /** Feeds a sequence of inputs to a stage in state `s`: its state afterwards and its outputs. */
  function Run<S, I, O>(stage: Stage<S, I, O>, s: S, inputs: seq<I>): (S, seq<O>) {
    if inputs == [] then (s, [])
    else
      var (s', outputs) := Run(stage, s, inputs[..|inputs| - 1]);
      var (s'', result) := stage.process(s', inputs[|inputs| - 1]);
      (s'', if result.Some? then outputs + [result.value] else outputs)
  }

  lemma RunSnoc<S, I, O>(stage: Stage<S, I, O>, s: S, inputs: seq<I>, x: I)
    ensures var (s', outputs) := Run(stage, s, inputs);
            var (s'', result) := stage.process(s', x);
            Run(stage, s, inputs + [x]) == (s'', if result.Some? then outputs + [result.value] else outputs)
  {
    assert (inputs + [x])[..|inputs|] == inputs;
  }

  lemma {:induction false} RunSplit<S, I, O>(stage: Stage<S, I, O>, s: S, xs: seq<I>, ys: seq<I>)
    ensures Run(stage, s, xs + ys).0 == Run(stage, Run(stage, s, xs).0, ys).0
    ensures Run(stage, s, xs + ys).1 == Run(stage, s, xs).1 + Run(stage, Run(stage, s, xs).0, ys).1
  {
    if ys == [] {
      assert xs + ys == xs;
    } else {
      var before, y := ys[..|ys| - 1], ys[|ys| - 1];
      RunSplit(stage, s, xs, before);
      assert xs + ys == (xs + before) + [y];
      RunSnoc(stage, s, xs + before, y);
      var mid, more := Run(stage, s, xs).1, Run(stage, Run(stage, s, xs).0, before).1;
      var result := stage.process(Run(stage, s, xs + before).0, y).1;
      assert result.Some? ==> (mid + more) + [result.value] == mid + (more + [result.value]);
    }
  }

  /** More input never takes back output. */
  lemma RunIsMonotone<S, I, O>(stage: Stage<S, I, O>, s: S, xs: seq<I>, ys: seq<I>)
    requires xs <= ys
    ensures Run(stage, s, xs).1 <= Run(stage, s, ys).1
  {
    RunSplit(stage, s, xs, ys[|xs|..]);
    assert ys == xs + ys[|xs|..];
  }

  // ---------- Chain ----------

  function ChainProcess<S1, S2, I, M, O>(first: Stage<S1, I, M>, second: Stage<S2, M, O>, s: (S1, S2), x: I)
      : ((S1, S2), Option<O>) {
    var (s1, mid) := first.process(s.0, x);
    if mid.None? then ((s1, s.1), None)
    else
      var (s2, result) := second.process(s.1, mid.value);
      ((s1, s2), result)
  }

  /** The second stage is ticked as well unless the first stage's tick got through to an output. */
  function ChainTick<S1, S2, I, M, O>(first: Stage<S1, I, M>, second: Stage<S2, M, O>, s: (S1, S2))
      : ((S1, S2), Option<O>) {
    var (s1, mid) := first.tick(s.0);
    var (s2, result) := if mid.Some? then second.process(s.1, mid.value) else (s.1, None);
    if result.Some? then ((s1, s2), result)
    else
      var (s2', ticked) := second.tick(s2);
      ((s1, s2'), ticked)
  }

  function Chain<S1, S2, I, M, O>(first: Stage<S1, I, M>, second: Stage<S2, M, O>): Stage<(S1, S2), I, O> {
    Stage((first.initial, second.initial),
          (s: (S1, S2), x: I) => ChainProcess(first, second, s, x),
          (s: (S1, S2)) => ChainTick(first, second, s),
          (s: (S1, S2)) => (first.reset(s.0), second.reset(s.1)))
  }

  /** Running a chain is running the second stage over the outputs of the first. */
  lemma {:induction false} ChainRuns<S1, S2, I, M, O>(
      first: Stage<S1, I, M>, second: Stage<S2, M, O>, s: (S1, S2), inputs: seq<I>)
    ensures var (s1, mids) := Run(first, s.0, inputs);
            var (s2, outputs) := Run(second, s.1, mids);
            Run(Chain(first, second), s, inputs) == ((s1, s2), outputs)
  {
    if inputs != [] {
      var before, x := inputs[..|inputs| - 1], inputs[|inputs| - 1];
      ChainRuns(first, second, s, before);
      var (s1, mids) := Run(first, s.0, before);
      var (_, mid) := first.process(s1, x);
      if mid.Some? {
        RunSnoc(second, s.1, mids, mid.value);
      }
    }
  }

  function Regroup<A, B, C>(s: ((A, B), C)): (A, (B, C)) {
    (s.0.0, (s.0.1, s.1))
  }

  /** Grouping does not matter to what a chain does with its inputs, nor to a reset. */
  lemma ChainIsAssociative<A, B, C, I, M, N, O>(
      a: Stage<A, I, M>, b: Stage<B, M, N>, c: Stage<C, N, O>, s: ((A, B), C), inputs: seq<I>)
    ensures var left, right := Run(Chain(Chain(a, b), c), s, inputs), Run(Chain(a, Chain(b, c)), Regroup(s), inputs);
            Regroup(left.0) == right.0 && left.1 == right.1
    ensures Regroup(Chain(Chain(a, b), c).reset(s)) == Chain(a, Chain(b, c)).reset(Regroup(s))
  {
    ChainRuns(Chain(a, b), c, s, inputs);
    ChainRuns(a, b, s.0, inputs);
    ChainRuns(a, Chain(b, c), Regroup(s), inputs);
    ChainRuns(b, c, (s.0.1, s.1), Run(a, s.0.0, inputs).1);
  }

  /** A stage that a reset takes back to its start, from wherever it is. */
  ghost predicate ResetsToStart<S(!new), I(!new), O(!new)>(stage: Stage<S, I, O>) {
    forall s :: stage.reset(s) == stage.initial
  }

  /** Resetting a chain resets both of its stages: it computes again what it computes from the start. */
  lemma ResetChainStartsAnew<S1(!new), S2(!new), I(!new), M(!new), O(!new)>(
      first: Stage<S1, I, M>, second: Stage<S2, M, O>, s: (S1, S2), inputs: seq<I>)
    requires ResetsToStart(first) && ResetsToStart(second)
    ensures ResetsToStart(Chain(first, second))
    ensures var mids := Run(first, first.initial, inputs).1;
            Run(Chain(first, second), Chain(first, second).reset(s), inputs).1 == Run(second, second.initial, mids).1
  {
    forall t: (S1, S2) ensures Chain(first, second).reset(t) == Chain(first, second).initial {
      assert first.reset(t.0) == first.initial && second.reset(t.1) == second.initial;
    }
    assert Chain(first, second).reset(s) == (first.initial, second.initial);
    ChainRuns(first, second, (first.initial, second.initial), inputs);
  }

  // ---------- Ticks ----------

  /**
   * A tick of a chain in terms of what its stages do: what the first one yields is an input of the
   * second, and the second is ticked unless that input has already given an output.
   */
  lemma TickOfChain<S1, S2, I, M, O>(first: Stage<S1, I, M>, second: Stage<S2, M, O>, s: (S1, S2))
    ensures var (s1, mid) := first.tick(s.0);
            var (s2, outputs) := Run(second, s.1, if mid.Some? then [mid.value] else []);
            Chain(first, second).tick(s) ==
              if outputs != [] then ((s1, s2), Some(outputs[0])) else ((s1, second.tick(s2).0), second.tick(s2).1)
  {
    var mid := first.tick(s.0).1;
    if mid.Some? {
      assert [mid.value] == [] + [mid.value];
      RunSnoc(second, s.1, [], mid.value);
    }
  }

  /** The default: a tick that does nothing. Flushing a chain has the same form, with `flush` for `tick`. */
  ghost predicate TickIsNoOp<S(!new), I(!new), O(!new)>(stage: Stage<S, I, O>) {
    forall s :: stage.tick(s) == (s, None)
  }

  lemma ChainKeepsNoOpTick<S1(!new), S2(!new), I(!new), M(!new), O(!new)>(
      first: Stage<S1, I, M>, second: Stage<S2, M, O>)
    requires TickIsNoOp(first) && TickIsNoOp(second)
    ensures TickIsNoOp(Chain(first, second))
  {
    forall s: (S1, S2) ensures Chain(first, second).tick(s) == (s, None) {
      assert first.tick(s.0) == (s.0, None) && second.tick(s.1) == (s.1, None);
    }
  }

  /** The first stage's tick passes the second stage and is then swallowed by the third. */
  predicate TickIsSwallowed<A, B, C, I, M, N, O>(
      a: Stage<A, I, M>, b: Stage<B, M, N>, c: Stage<C, N, O>, s: ((A, B), C)) {
    var mid := a.tick(s.0.0).1;
    mid.Some? &&
    (var next := b.process(s.0.1, mid.value).1;
     next.Some? && c.process(s.1, next.value).1.None?)
  }

  /**
   * Ticking a chain of three does not depend on the grouping, except where the first stage's
   * tick is swallowed by the third: then only the right grouping ticks the second stage too.
   */
  lemma TickGrouping<A, B, C, I, M, N, O>(
      a: Stage<A, I, M>, b: Stage<B, M, N>, c: Stage<C, N, O>, s: ((A, B), C))
    ensures var left, right := Chain(Chain(a, b), c).tick(s), Chain(a, Chain(b, c)).tick(Regroup(s));
            if !TickIsSwallowed(a, b, c, s) then Regroup(left.0) == right.0 && left.1 == right.1
            else
              var mid := a.tick(s.0.0).1.value;
              var (sb, next) := b.process(s.0.1, mid);
              var sc := c.process(s.1, next.value).0;
              && (Regroup(left.0), left.1) == ((a.tick(s.0.0).0, (sb, c.tick(sc).0)), c.tick(sc).1)
              && right == (var t := Chain(b, c).tick((sb, sc)); ((a.tick(s.0.0).0, t.0), t.1))
  {
  }

  /**
   * So the groupings tick alike if and only if the first tick is not swallowed, or the second
   * stage's own tick does not show: it leaves its state, and either yields nothing or something
   * that the third stage turns into what its own tick would have given.
   */
  lemma TicksAlikeIff<A, B, C, I, M, N, O>(
      a: Stage<A, I, M>, b: Stage<B, M, N>, c: Stage<C, N, O>, s: ((A, B), C))
    ensures var left, right := Chain(Chain(a, b), c).tick(s), Chain(a, Chain(b, c)).tick(Regroup(s));
            (Regroup(left.0), left.1) == right <==>
            TickIsSwallowed(a, b, c, s) ==>
              var (sb, next) := b.process(s.0.1, a.tick(s.0.0).1.value);
              var sc := c.process(s.1, next.value).0;
              var (sb', extra) := b.tick(sb);
              sb' == sb &&
              (extra.Some? ==>
                var (sc', got) := c.process(sc, extra.value);
                c.tick(sc) == if got.Some? then (sc', got) else c.tick(sc'))
  {
    TickGrouping(a, b, c, s);
  }

  /** A stage that counts its ticks and lets no value through. */
  function TickCounter(): Stage<int, int, int> {
    Stage(0, (n: int, x: int) => (n, Some(x)), (n: int) => (n + 1, None), (n: int) => 0)
  }

  function Beeper(): Stage<int, int, int> {
    Stage(0, (n: int, x: int) => (n, Some(x)), (n: int) => (n, Some(7)), (n: int) => 0)
  }

  function Sink(): Stage<int, int, int> {
    Stage(0, (n: int, x: int) => (n, None), (n: int) => (n, None), (n: int) => 0)
  }

  /** So ticking is not associative: the right grouping counts one tick, the left none. */
  lemma TickIsNotAssociative()
    ensures Chain(Chain(Beeper(), TickCounter()), Sink()).tick(((0, 0), 0)).0 == ((0, 0), 0)
    ensures Chain(Beeper(), Chain(TickCounter(), Sink())).tick((0, (0, 0))).0 == (0, (1, 0))
  {
  }

  // ---------- Stages without state ----------

  /** `f` says all there is to say about the stage. */
  ghost predicate Computes<S(!new), I(!new), O(!new)>(stage: Stage<S, I, O>, f: I -> Option<O>) {
    forall s, x :: stage.process(s, x).1 == f(x)
  }

  function FilterMap<I, O>(f: I -> Option<O>): Stage<(), I, O> {
    Stage((), (s: (), x: I) => (s, f(x)), (s: ()) => (s, None), (s: ()) => s)
  }

  function Map<I, O>(f: I -> O): Stage<(), I, O> {
    Stage((), (s: (), x: I) => (s, Some(f(x))), (s: ()) => (s, None), (s: ()) => s)
  }

  function Filter<T>(p: T -> bool): Stage<(), T, T> {
    Stage((), (s: (), x: T) => (s, if p(x) then Some(x) else None), (s: ()) => (s, None), (s: ()) => s)
  }

  function Identity<T>(): Stage<(), T, T> {
    Stage((), (s: (), x: T) => (s, Some(x)), (s: ()) => (s, None), (s: ()) => s)
  }

  /** Applies `f` to every element and keeps what it does not filter out. */
  function Collect<I, O>(f: I -> Option<O>, xs: seq<I>): seq<O> {
    if xs == [] then []
    else
      var rest, y := Collect(f, xs[..|xs| - 1]), f(xs[|xs| - 1]);
      if y.Some? then rest + [y.value] else rest
  }

  /** Whatever state such a stage is in, and however often it was reset, it collects `f`. */
  lemma {:induction false} StatelessRun<S(!new), I(!new), O(!new)>(
      stage: Stage<S, I, O>, f: I -> Option<O>, s: S, inputs: seq<I>)
    requires Computes(stage, f)
    ensures Run(stage, s, inputs).1 == Collect(f, inputs)
  {
    if inputs != [] {
      StatelessRun(stage, f, s, inputs[..|inputs| - 1]);
    }
  }

  function Then<I, M, O>(f: I -> Option<M>, g: M -> Option<O>): I -> Option<O> {
    (x: I) => if f(x).Some? then g(f(x).value) else None
  }

  lemma {:induction false} CollectCompose<I, M, O>(f: I -> Option<M>, g: M -> Option<O>, xs: seq<I>)
    ensures Collect(g, Collect(f, xs)) == Collect(Then(f, g), xs)
  {
    if xs != [] {
      CollectCompose(f, g, xs[..|xs| - 1]);
      var rest, y := Collect(f, xs[..|xs| - 1]), f(xs[|xs| - 1]);
      if y.Some? {
        assert (rest + [y.value])[..|rest|] == rest;
      }
    }
  }

  lemma ChainComputes<S1(!new), S2(!new), I(!new), M(!new), O(!new)>(
      first: Stage<S1, I, M>, second: Stage<S2, M, O>, f: I -> Option<M>, g: M -> Option<O>)
    requires Computes(first, f) && Computes(second, g)
    ensures Computes(Chain(first, second), Then(f, g))
  {
  }

  /** A predicate and a function, as filter-maps. */
  function Keeping<T>(p: T -> bool): T -> Option<T> {
    (x: T) => if p(x) then Some(x) else None
  }

  function Wrapping<I, O>(g: I -> O): I -> Option<O> {
    (x: I) => Some(g(x))
  }

  function Passing<T>(): T -> Option<T> {
    (x: T) => Some(x)
  }

  /** The combinators without state compute what their names say. */
  lemma CombinatorsCompute<I(!new), O(!new)>(f: I -> Option<O>, g: I -> O, p: I -> bool)
    ensures Computes(FilterMap(f), f) && Computes(Map(g), Wrapping(g))
    ensures Computes(Filter(p), Keeping(p)) && Computes(Identity<I>(), Passing<I>())
  {
  }

  /** Only the values at the elements matter to a collection. */
  lemma {:induction false} CollectPointwise<I, O>(f: I -> Option<O>, g: I -> Option<O>, xs: seq<I>)
    requires forall i :: 0 <= i < |xs| ==> f(xs[i]) == g(xs[i])
    ensures Collect(f, xs) == Collect(g, xs)
  {
    if xs != [] {
      CollectPointwise(f, g, xs[..|xs| - 1]);
    }
  }

  /** Mapping transforms and keeps everything. */
  lemma {:induction false} MapRuns<I, O>(f: I -> O, inputs: seq<I>)
    ensures var outputs := Run(Map(f), (), inputs).1;
            |outputs| == |inputs| && forall i :: 0 <= i < |inputs| ==> outputs[i] == f(inputs[i])
  {
    if inputs != [] {
      MapRuns(f, inputs[..|inputs| - 1]);
    }
  }

  lemma {:induction false} IdentityRuns<T>(inputs: seq<T>)
    ensures Run(Identity<T>(), (), inputs).1 == inputs
  {
    if inputs != [] {
      IdentityRuns(inputs[..|inputs| - 1]);
    }
  }
}
