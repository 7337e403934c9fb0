/**
 * The jitter tracker: Welford's online mean and squared deviation, stored in fixed point with
 * 32 fractional bits. Apart from that truncation the arithmetic is exact.
 */
module Jitter {
  import opened Wrappers
  import opened Sums
  import opened RealFacts

  /** The largest value that the fixed-point format is clamped to. */
  const FP_LIMIT: real := 4294967295.0

  const SAMPLE_LIMIT: nat := 0xFFFF_FFFF

  /** The value of `k` units in the last of the 32 fractional bits. */
  function Units(k: real): real {
    k / 4294967296.0
  }

  function Clamp(value: real): real {
    if value < 0.0 then 0.0 else if value > FP_LIMIT then FP_LIMIT else value
  }

  function ToFixed(value: real): (fp: nat)
    ensures fp as real <= Clamp(value) * 4294967296.0 < fp as real + 1.0
    ensures fp <= U64_MAX
  {
    (Clamp(value) * 4294967296.0).Floor
  }

  function FromFixed(fp: nat): real {
    Units(fp as real)
  }

  datatype State = State(count: nat, meanFp: nat, m2Fp: nat, min: nat, max: nat)

  const INIT := State(0, 0, 0, U64_MAX, 0)

  /** The mean before it is stored. */
  function NewMean(mean: real, count: nat, x: real): real {
    mean + (x - mean) / (count + 1) as real
  }

  /** What a sample adds to the squared deviation: its distance from the old mean times that from the new. */
  function Increase(mean: real, newMean: real, x: real): real {
    (x - mean) * (x - newMean)
  }

  /** The squared deviation before it is stored. */
  function NewM2(m2: real, mean: real, newMean: real, x: real): real {
    m2 + Increase(mean, newMean, x)
  }

  function Recorded(s: State, x: nat): State {
    var mean := FromFixed(s.meanFp);
    var newMean := NewMean(mean, s.count, x as real);
    State(s.count + 1,
          ToFixed(newMean),
          ToFixed(NewM2(FromFixed(s.m2Fp), mean, newMean, x as real)),
          if x < s.min then x else s.min,
          if x > s.max then x else s.max)
  }

  ghost predicate StepOf(states: seq<State>, xs: seq<nat>, i: nat)
    requires i < |xs| && |states| == |xs| + 1
  {
    states[i + 1] == Recorded(states[i], xs[i])
  }

  /** The states that the tracker goes through on a sequence of samples, the empty one included. */
  ghost predicate IsRun(states: seq<State>, xs: seq<nat>) {
    && |states| == |xs| + 1 && states[0] == INIT
    && forall i: nat :: i < |xs| ==> StepOf(states, xs, i)
  }

  // ---------- Fixed point ----------

  /** Storing loses less than one unit in the last place exactly on the representable range. */
  lemma StoredWithinUnitIff(value: real)
    ensures 0.0 <= value - FromFixed(ToFixed(value)) < Units(1.0)
            <==> 0.0 <= value < FP_LIMIT + Units(1.0)
  {
    if value > FP_LIMIT {
      assert ToFixed(value) as real == FP_LIMIT * 4294967296.0;
    }
    if value < 0.0 {
      assert ToFixed(value) == 0;
    }
  }

  /** What was loaded is stored back unchanged exactly when it is within the clamp. */
  lemma RoundTripIff(fp: nat)
    ensures ToFixed(FromFixed(fp)) == fp <==> FromFixed(fp) <= FP_LIMIT
  {
  }

  // ---------- The stored mean ----------

  lemma NewMeanScaled(mean: real, n: nat, x: real)
    ensures (n + 1) as real * NewMean(mean, n, x) == n as real * mean + x
  {
    var d := (n + 1) as real;
    DivMul(x - mean, d);
    assert d * (mean + (x - mean) / d) == d * mean + ((x - mean) / d) * d;
    assert d * mean == n as real * mean + mean;
  }

  /** A mean of values within the clamp is within it. */
  lemma NewMeanInRange(mean: real, n: nat, x: real)
    requires 0.0 <= mean <= FP_LIMIT && 0.0 <= x <= FP_LIMIT
    ensures 0.0 <= NewMean(mean, n, x) <= FP_LIMIT
  {
    var d, u := (n + 1) as real, NewMean(mean, n, x);
    NewMeanScaled(mean, n, x);
    MulNonNegative(n as real, mean);
    MulNonNegative(n as real, FP_LIMIT - mean);
    CancelLess(0.0, u, d);
    assert n as real * mean + x <= n as real * FP_LIMIT + FP_LIMIT;
    CancelLess(u, FP_LIMIT, d);
  }

  function Triangle(n: nat): nat {
    if n == 0 then 0 else Triangle(n - 1) + n
  }

  lemma {:induction false} TriangleIs(n: nat)
    ensures 2 * Triangle(n) == n * (n + 1)
  {
    if n > 0 {
      TriangleIs(n - 1);
    }
  }

  /** `n` times the stored mean is below the total, by at most Triangle(n) units. */
  ghost predicate MeanAgrees(n: nat, mean: real, total: nat) {
    && 0.0 <= mean <= FP_LIMIT
    && n as real * mean <= total as real
    && total as real <= n as real * mean + Units(Triangle(n) as real)
  }

  /** Storing `u` as `stored` costs the scaled mean at most one more unit per sample. */
  lemma StoreArithmetic(scaled: real, d: real, u: real, stored: real, total: real, x: real, slack: real, unit: real)
    requires d > 0.0 && 0.0 <= u - stored < unit
    requires d * u == scaled + x && scaled <= total <= scaled + slack
    ensures d * stored <= total + x <= d * stored + slack + d * unit
  {
    MulNonNegative(d, u - stored);
    MulNonNegative(d, unit - (u - stored));
    assert d * (u - stored) == d * u - d * stored;
    assert d * (unit - (u - stored)) == d * unit - d * (u - stored);
  }

  lemma MoreUnits(units: real, d: real)
    ensures Units(units + d) == Units(units) + d * Units(1.0)
  {
  }

  lemma MeanStep(n: nat, mean: real, total: nat, x: nat)
    requires MeanAgrees(n, mean, total) && x <= SAMPLE_LIMIT
    ensures MeanAgrees(n + 1, FromFixed(ToFixed(NewMean(mean, n, x as real))), total + x)
  {
    var u := NewMean(mean, n, x as real);
    NewMeanInRange(mean, n, x as real);
    NewMeanScaled(mean, n, x as real);
    StoredWithinUnitIff(u);
    StoreMean(n, mean, total, x, u, FromFixed(ToFixed(u)));
  }

  lemma StoreMean(n: nat, mean: real, total: nat, x: nat, u: real, stored: real)
    requires MeanAgrees(n, mean, total)
    requires 0.0 <= stored <= u <= FP_LIMIT && u - stored < Units(1.0)
    requires (n + 1) as real * u == n as real * mean + x as real
    ensures MeanAgrees(n + 1, stored, total + x)
  {
    var d, units := (n + 1) as real, Triangle(n) as real;
    StoreArithmetic(n as real * mean, d, u, stored, total as real, x as real, Units(units), Units(1.0));
    MoreUnits(units, d);
    assert Triangle(n + 1) as real == units + d;
  }

  lemma {:induction false} RunMeanAgrees(states: seq<State>, xs: seq<nat>, k: nat)
    requires IsRun(states, xs) && k <= |xs|
    requires forall i :: 0 <= i < |xs| ==> xs[i] <= SAMPLE_LIMIT
    ensures states[k].count == k
    ensures MeanAgrees(k, FromFixed(states[k].meanFp), Total(xs[..k]))
  {
    if k > 0 {
      RunMeanAgrees(states, xs, k - 1);
      assert StepOf(states, xs, k - 1);
      assert xs[..k][..k - 1] == xs[..k - 1];
      MeanStep(k - 1, FromFixed(states[k - 1].meanFp), Total(xs[..k - 1]), xs[k - 1]);
    }
  }

  lemma ErrorArithmetic(n: real, mean: real, total: real, trueMean: real, slack: real)
    requires n > 0.0 && n * mean <= total <= n * mean + slack * n && trueMean * n == total
    ensures 0.0 <= trueMean - mean <= slack
  {
    CancelLess(mean, trueMean, n);
    assert (mean + slack) * n == n * mean + slack * n;
    CancelLess(trueMean, mean + slack, n);
  }

  lemma TriangleUnits(n: nat)
    ensures Units(Triangle(n) as real) == Units((n + 1) as real / 2.0) * n as real
  {
    TriangleIs(n);
    CastProduct(n, n + 1);
  }

  /**
   * For samples below 2^32 the stored mean never exceeds the true mean, and after n samples it
   * falls short by at most (n + 1) / 2 units in the last place.
   */
  lemma StoredMeanError(states: seq<State>, xs: seq<nat>, k: nat, trueMean: real)
    requires IsRun(states, xs) && 0 < k <= |xs|
    requires forall i :: 0 <= i < |xs| ==> xs[i] <= SAMPLE_LIMIT
    requires trueMean * k as real == Total(xs[..k]) as real
    ensures 0.0 <= trueMean - FromFixed(states[k].meanFp) <= Units((k + 1) as real / 2.0)
  {
    RunMeanAgrees(states, xs, k);
    MeanError(k, FromFixed(states[k].meanFp), Total(xs[..k]), trueMean);
  }

  lemma MeanError(n: nat, mean: real, total: nat, trueMean: real)
    requires n > 0 && MeanAgrees(n, mean, total) && trueMean * n as real == total as real
    ensures 0.0 <= trueMean - mean <= Units((n + 1) as real / 2.0)
  {
    var slack := Units((n + 1) as real / 2.0);
    TriangleUnits(n);
    ErrorArithmetic(n as real, mean, total as real, trueMean, slack);
  }

  lemma CastProduct(a: nat, b: nat)
    ensures (a * b) as real == a as real * b as real
  {
  }

  // ---------- The stored squared deviation ----------

  /** The product of the two deltas is the squared delta scaled by n / (n + 1). */
  lemma DeltaProduct(mean: real, n: nat, x: real)
    ensures Increase(mean, NewMean(mean, n, x), x) >= 0.0
  {
    var d, delta := (n + 1) as real, x - mean;
    var q := delta / d;
    DivMul(delta, d);
    assert delta == q * d;
    assert x - NewMean(mean, n, x) == delta - q == q * n as real;
    MulNonNegative(Abs(q), Abs(q));
    MulNonNegative(d, n as real);
    MulNonNegative(q * q, d * n as real);
    assert delta * (q * n as real) == (q * q) * (d * n as real);
  }

  lemma StoreNeverLowers(fp: nat, increase: real)
    requires FromFixed(fp) <= FP_LIMIT && increase >= 0.0
    ensures ToFixed(FromFixed(fp) + increase) >= fp
  {
  }

  lemma StoredWithinLimit(value: real)
    ensures FromFixed(ToFixed(value)) <= FP_LIMIT
  {
  }

  lemma RecordedM2(s: State, x: nat) returns (increase: real)
    ensures increase >= 0.0 && Recorded(s, x).m2Fp == ToFixed(FromFixed(s.m2Fp) + increase)
  {
    var mean := FromFixed(s.meanFp);
    DeltaProduct(mean, s.count, x as real);
    increase := Increase(mean, NewMean(mean, s.count, x as real), x as real);
  }

  /**
   * What one record stores, in terms of the mean it loads and the number that is the new mean: each
   * value is cut off at the clamp and loses less than one unit in the last place.
   */
  lemma RecordStores(s: State, x: nat, mean: real, newMean: real, m2: real)
    requires mean == FromFixed(s.meanFp)
    requires (s.count + 1) as real * newMean == s.count as real * mean + x as real
    requires m2 == FromFixed(s.m2Fp) + (x as real - mean) * (x as real - newMean)
    ensures var s' := Recorded(s, x);
            && s'.count == s.count + 1
            && FromFixed(s'.meanFp) <= Clamp(newMean) < FromFixed(s'.meanFp) + Units(1.0)
            && FromFixed(s'.m2Fp) <= Clamp(m2) < FromFixed(s'.m2Fp) + Units(1.0)
  {
    NewMeanIs(mean, s.count, x as real, newMean);
    NewM2Is(FromFixed(s.m2Fp), mean, newMean, x as real, m2);
    StoredAs(newMean, Recorded(s, x).meanFp);
    StoredAs(m2, Recorded(s, x).m2Fp);
  }

  lemma NewM2Is(before: real, mean: real, newMean: real, x: real, m2: real)
    requires m2 == before + (x - mean) * (x - newMean)
    ensures NewM2(before, mean, newMean, x) == m2
  {
  }

  lemma StoredAs(value: real, fp: nat)
    requires fp == ToFixed(value)
    ensures FromFixed(fp) <= Clamp(value) < FromFixed(fp) + Units(1.0)
  {
  }

  lemma NewMeanIs(mean: real, n: nat, x: real, newMean: real)
    requires (n + 1) as real * newMean == n as real * mean + x
    ensures newMean == NewMean(mean, n, x)
  {
    var d, u := (n + 1) as real, NewMean(mean, n, x);
    NewMeanScaled(mean, n, x);
    assert newMean * d == u * d;
    Cancel(newMean, u, d);
  }

  lemma M2Step(s: State, x: nat)
    requires FromFixed(s.m2Fp) <= FP_LIMIT
    ensures s.m2Fp <= Recorded(s, x).m2Fp && FromFixed(Recorded(s, x).m2Fp) <= FP_LIMIT
  {
    var increase := RecordedM2(s, x);
    StoreNeverLowers(s.m2Fp, increase);
    StoredWithinLimit(FromFixed(s.m2Fp) + increase);
  }

  /** The stored squared deviation never decreases, and never exceeds 2^32 - 1. */
  lemma {:induction false} M2NeverDecreases(states: seq<State>, xs: seq<nat>, j: nat, k: nat)
    requires IsRun(states, xs) && j <= k <= |xs|
    ensures states[j].m2Fp <= states[k].m2Fp && FromFixed(states[k].m2Fp) <= FP_LIMIT
  {
    if k > 0 {
      M2NeverDecreases(states, xs, if j < k then j else k - 1, k - 1);
      assert StepOf(states, xs, k - 1);
      M2Step(states[k - 1], xs[k - 1]);
    }
  }

  // ---------- Welford without storage ----------

  datatype Exact = Exact(count: nat, mean: real, m2: real)

  function ExactStep(s: Exact, x: real): Exact {
    var newMean := NewMean(s.mean, s.count, x);
    Exact(s.count + 1, newMean, NewM2(s.m2, s.mean, newMean, x))
  }

  ghost predicate ExactStepOf(states: seq<Exact>, xs: seq<real>, i: nat)
    requires i < |xs| && |states| == |xs| + 1
  {
    states[i + 1] == ExactStep(states[i], xs[i])
  }

  ghost predicate IsExactRun(states: seq<Exact>, xs: seq<real>) {
    && |states| == |xs| + 1 && states[0] == Exact(0, 0.0, 0.0)
    && forall i: nat :: i < |xs| ==> ExactStepOf(states, xs, i)
  }

  function Square(x: real): real {
    x * x
  }

  function Squares(xs: seq<real>): real {
    if xs == [] then 0.0 else Squares(xs[..|xs| - 1]) + Square(xs[|xs| - 1])
  }

  /** The sum of squared deviations from `c`. */
  function Deviation(xs: seq<real>, c: real): real {
    if xs == [] then 0.0 else Deviation(xs[..|xs| - 1], c) + Square(xs[|xs| - 1] - c)
  }

  /** The expansion of the sum of squared deviations, from the total and the sum of squares. */
  function Expanded(n: real, total: real, squares: real, c: real): real {
    squares - 2.0 * (c * total) + n * (c * c)
  }

  lemma ExpandOne(x: real, c: real, n: real, total: real, squares: real)
    ensures Expanded(n + 1.0, total + x, squares + Square(x), c) == Expanded(n, total, squares, c) + Square(x - c)
  {
    assert (x - c) * (x - c) == x * x - 2.0 * (c * x) + c * c;
    assert c * (total + x) == c * total + c * x;
    assert (n + 1.0) * (c * c) == n * (c * c) + c * c;
  }

  lemma {:induction false} DeviationExpands(xs: seq<real>, c: real)
    ensures Deviation(xs, c) == Expanded(|xs| as real, TotalReal(xs), Squares(xs), c)
  {
    if xs != [] {
      var before := xs[..|xs| - 1];
      DeviationExpands(before, c);
      var n := |before| as real;
      ExpandOne(xs[|xs| - 1], c, n, TotalReal(before), Squares(before));
      assert |xs| as real == n + 1.0;
    }
  }

  /** The cross terms of one update cancel. */
  lemma WelfordAlgebra(n: real, mean: real, newMean: real, x: real)
    requires (n + 1.0) * newMean == n * mean + x
    ensures (x - mean) * (x - newMean) == x * x + n * (mean * mean) - (n + 1.0) * (newMean * newMean)
  {
    assert (n + 1.0) * (newMean * newMean) == newMean * ((n + 1.0) * newMean);
    assert newMean * (n * mean + x) == n * (mean * newMean) + x * newMean;
    assert n * (mean * mean) == mean * (n * mean);
    assert mean * ((n + 1.0) * newMean - x) == n * (mean * newMean) + mean * newMean - x * mean;
    assert (x - mean) * (x - newMean) == x * x - x * newMean - x * mean + mean * newMean;
  }

  /** The exact invariant: n * mean is the total, m2 the squares less n * mean^2. */
  ghost predicate ExactAgrees(s: Exact, total: real, squares: real) {
    && s.count as real * s.mean == total
    && s.m2 == squares - s.count as real * (s.mean * s.mean)
  }

  /** What one step is required to do: scale the mean and add the product of the two deltas. */
  ghost predicate Follows(s: Exact, x: real, s': Exact) {
    && s'.count as real == s.count as real + 1.0
    && (s.count as real + 1.0) * s'.mean == s.count as real * s.mean + x
    && s'.m2 == s.m2 + (x - s.mean) * (x - s'.mean)
  }

  lemma ExactStepFollows(s: Exact, x: real)
    ensures Follows(s, x, ExactStep(s, x))
  {
    NewMeanScaled(s.mean, s.count, x);
    assert (s.count + 1) as real == s.count as real + 1.0;
  }

  lemma FollowerAgrees(s: Exact, x: real, s': Exact, total: real, squares: real)
    requires ExactAgrees(s, total, squares) && Follows(s, x, s')
    ensures ExactAgrees(s', total + x, squares + Square(x))
  {
    WelfordAlgebra(s.count as real, s.mean, s'.mean, x);
  }

  lemma TotalsOfPrefix(xs: seq<real>, k: nat)
    requires 0 < k <= |xs|
    ensures TotalReal(xs[..k]) == TotalReal(xs[..k - 1]) + xs[k - 1]
    ensures Squares(xs[..k]) == Squares(xs[..k - 1]) + Square(xs[k - 1])
  {
    assert xs[..k][..k - 1] == xs[..k - 1];
  }

  lemma ExactStepAt(states: seq<Exact>, xs: seq<real>, k: nat)
    requires IsExactRun(states, xs) && 0 < k <= |xs|
    ensures states[k] == ExactStep(states[k - 1], xs[k - 1])
    ensures states[k].count == states[k - 1].count + 1
  {
    assert ExactStepOf(states, xs, k - 1);
  }

  lemma ExactStepOfRun(states: seq<Exact>, xs: seq<real>, k: nat, total: real, squares: real)
    requires IsExactRun(states, xs) && 0 < k <= |xs|
    requires states[k - 1].count == k - 1 && ExactAgrees(states[k - 1], total, squares)
    ensures states[k].count == k && ExactAgrees(states[k], total + xs[k - 1], squares + Square(xs[k - 1]))
  {
    ExactStepAt(states, xs, k);
    ExactStepFollows(states[k - 1], xs[k - 1]);
    FollowerAgrees(states[k - 1], xs[k - 1], states[k], total, squares);
  }

  lemma {:induction false} ExactRunAgrees(states: seq<Exact>, xs: seq<real>, k: nat)
    requires IsExactRun(states, xs) && k <= |xs|
    ensures states[k].count == k && ExactAgrees(states[k], TotalReal(xs[..k]), Squares(xs[..k]))
  {
    if k > 0 {
      ExactRunAgrees(states, xs, k - 1);
      ExactStepOfRun(states, xs, k, TotalReal(xs[..k - 1]), Squares(xs[..k - 1]));
      TotalsOfPrefix(xs, k);
    }
  }

  lemma DeviationFromMean(s: Exact, total: real, squares: real)
    requires ExactAgrees(s, total, squares)
    ensures s.m2 == Expanded(s.count as real, total, squares, s.mean)
  {
    var n, mean := s.count as real, s.mean;
    assert mean * (n * mean) == n * (mean * mean);
  }

  /** Without truncation the recurrence computes the mean and the sum of squared deviations. */
  lemma WelfordIsExact(states: seq<Exact>, xs: seq<real>, k: nat)
    requires IsExactRun(states, xs) && k <= |xs|
    ensures k as real * states[k].mean == TotalReal(xs[..k])
    ensures states[k].m2 == Deviation(xs[..k], states[k].mean)
  {
    ExactRunAgrees(states, xs, k);
    DeviationExpands(xs[..k], states[k].mean);
    DeviationFromMean(states[k], TotalReal(xs[..k]), Squares(xs[..k]));
    assert |xs[..k]| == k;
  }

  // ---------- Extremes ----------

  lemma {:induction false} ExtremesAreTrue(states: seq<State>, xs: seq<nat>, k: nat)
    requires IsRun(states, xs) && k <= |xs|
    requires forall i :: 0 <= i < |xs| ==> xs[i] <= U64_MAX
    ensures forall i :: 0 <= i < k ==> states[k].min <= xs[i] <= states[k].max
    ensures states[k].min == U64_MAX || states[k].min in xs[..k]
    ensures states[k].max == 0 || states[k].max in xs[..k]
  {
    if k > 0 {
      ExtremesAreTrue(states, xs, k - 1);
      assert StepOf(states, xs, k - 1);
      assert xs[..k] == xs[..k - 1] + [xs[k - 1]];
    }
  }

  // ---------- The class ----------

  class Cell {
    var value: nat

    constructor (v: nat)
      ensures value == v
    {
      value := v;
    }
  }

  /** Lowers a shared minimum; the exchange may fail spuriously, as often as the caller says. */
  method UpdateMin(min: Cell, value: nat, spurious: nat)
    modifies min
    ensures min.value == if value < old(min.value) then value else old(min.value)
  {
    var current, failures := min.value, spurious;
    while value < current
      invariant current == min.value == old(min.value)
      decreases failures
    {
      if failures == 0 {
        min.value := value;
        break;
      }
      failures := failures - 1;
      current := min.value;
    }
  }

  method UpdateMax(max: Cell, value: nat, spurious: nat)
    modifies max
    ensures max.value == if value > old(max.value) then value else old(max.value)
  {
    var current, failures := max.value, spurious;
    while value > current
      invariant current == max.value == old(max.value)
      decreases failures
    {
      if failures == 0 {
        max.value := value;
        break;
      }
      failures := failures - 1;
      current := max.value;
    }
  }

  /** The tracker as the source writes it, each call running on its own. */
  class JitterTracker {
    var count: nat
    var meanFp: nat
    var m2Fp: nat
    const min: Cell
    const max: Cell

    ghost function View(): State
      reads this, min, max
    {
      State(count, meanFp, m2Fp, min.value, max.value)
    }

    constructor ()
      ensures View() == INIT && min != max && fresh(min) && fresh(max)
    {
      count, meanFp, m2Fp := 0, 0, 0;
      min := new Cell(U64_MAX);
      max := new Cell(0);
    }

    method Record(latencyNs: u64, spuriousMin: nat, spuriousMax: nat, spuriousCount: nat)
      requires min != max
      modifies this, min, max
      ensures View() == Recorded(old(View()), latencyNs)
    {
      UpdateMin(min, latencyNs, spuriousMin);
      UpdateMax(max, latencyNs, spuriousMax);
      var failures := spuriousCount;
      while true
        invariant count == old(count) && meanFp == old(meanFp) && m2Fp == old(m2Fp)
        invariant min.value == if latencyNs < old(min.value) then latencyNs else old(min.value)
        invariant max.value == if latencyNs > old(max.value) then latencyNs else old(max.value)
        decreases failures
      {
        var oldCount, oldMeanFp, oldM2Fp := count, meanFp, m2Fp;
        var newCount := oldCount + 1;
        var oldMean := FromFixed(oldMeanFp);
        var newMean := NewMean(oldMean, oldCount, latencyNs as real);
        var newM2 := NewM2(FromFixed(oldM2Fp), oldMean, newMean, latencyNs as real);
        var newMeanFp := ToFixed(newMean);
        var newM2Fp := ToFixed(newM2);
        if failures == 0 {
          count := newCount;
          meanFp := newMeanFp;
          m2Fp := newM2Fp;
          return;
        }
        failures := failures - 1;
      }
    }

    method Reset()
      requires min != max
      modifies this, min, max
      ensures View() == INIT
    {
      count, meanFp, m2Fp := 0, 0, 0;
      min.value := U64_MAX;
      max.value := 0;
    }

    /** The sample variance, with the n - 1 denominator. */
    method Variance() returns (v: real)
      ensures count < 2 ==> v == 0.0
      ensures count >= 2 ==> v * (count - 1) as real == FromFixed(m2Fp)
    {
      if count < 2 {
        return 0.0;
      }
      DivMul(FromFixed(m2Fp), (count - 1) as real);
      return FromFixed(m2Fp) / (count - 1) as real;
    }
  }
}
