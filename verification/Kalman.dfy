/** The one-dimensional Kalman filter over exact reals. */
module Kalman {
  import opened RealFacts

  datatype State = State(estimate: real, covariance: real)

  /** One update with process noise `q` and measurement noise `r`. */
  function Updated(s: State, q: real, r: real, measurement: real): State
    requires s.covariance + q + r != 0.0
  {
    var predicted := s.covariance + q;
    var gain := predicted / (predicted + r);
    State(s.estimate + gain * (measurement - s.estimate), (1.0 - gain) * predicted)
  }

  ghost predicate StepOf(states: seq<State>, q: real, r: real, ms: seq<real>, i: nat)
    requires i < |ms| && |states| == |ms| + 1
  {
    states[i].covariance + q + r != 0.0 && states[i + 1] == Updated(states[i], q, r, ms[i])
  }

  /** The states that a filter goes through on a sequence of measurements, the first included. */
  ghost predicate IsRun(states: seq<State>, q: real, r: real, ms: seq<real>) {
    && q > 0.0 && r > 0.0
    && |states| == |ms| + 1
    && states[0].covariance >= 0.0
    && forall i: nat :: i < |ms| ==> StepOf(states, q, r, ms, i)
  }

  // ---------- One update ----------

  /** The share of the old error that an update keeps. */
  function Keep(covariance: real, q: real, r: real): (c: real)
    requires covariance >= 0.0 && q > 0.0 && r > 0.0
  {
    r / (covariance + q + r)
  }

  lemma KeepFacts(covariance: real, q: real, r: real)
    requires covariance >= 0.0 && q > 0.0 && r > 0.0
    ensures var p, c := covariance + q, Keep(covariance, q, r);
            0.0 < c < 1.0 && c * (p + r) == r && p / (p + r) == 1.0 - c
  {
    var p, d := covariance + q, covariance + q + r;
    DivMul(r, d);
    DivMul(p, d);
    assert (p / d + r / d) * d == (p / d) * d + (r / d) * d;
    Cancel(p / d + r / d, 1.0, d);
    CancelLess(0.0, r / d, d);
    CancelLess(r / d, 1.0, d);
    if r / d == 1.0 || r / d == 0.0 {
      assert false;
    }
  }

  /** A filter keeps at most the share that it would keep with no error of its own. */
  lemma KeepBound(covariance: real, q: real, r: real)
    requires covariance >= 0.0 && q > 0.0 && r > 0.0
    ensures Keep(covariance, q, r) <= Keep(0.0, q, r)
  {
    var c, c0 := Keep(covariance, q, r), Keep(0.0, q, r);
    KeepFacts(covariance, q, r);
    KeepFacts(0.0, q, r);
    MulNonNegative(c, covariance);
    assert c * (covariance + q + r) == c * (q + r) + c * covariance;
    CancelLess(c, c0, q + r);
  }

  lemma CovarianceIsScaledGain(s: State, q: real, r: real, m: real)
    requires s.covariance >= 0.0 && q > 0.0 && r > 0.0
    ensures var c := Keep(s.covariance, q, r);
            && Updated(s, q, r, m).covariance == (1.0 - c) * r
            && 0.0 < Updated(s, q, r, m).covariance < r
  {
    var p, c := s.covariance + q, Keep(s.covariance, q, r);
    KeepFacts(s.covariance, q, r);
    assert (1.0 - (1.0 - c)) * p == c * p;
    assert c * (p + r) == c * p + c * r;
    MulPositive(c, r);
    MulPositive(1.0 - c, r);
    assert (1.0 - c) * r == r - c * r;
  }

  /** The error against any reference moves towards the measurement's by the kept share. */
  lemma ErrorAfterUpdate(s: State, q: real, r: real, m: real)
    requires s.covariance >= 0.0 && q > 0.0 && r > 0.0
    ensures Updated(s, q, r, m).estimate - m == Keep(s.covariance, q, r) * (s.estimate - m)
  {
    KeepFacts(s.covariance, q, r);
    var c := Keep(s.covariance, q, r);
    assert s.estimate + (1.0 - c) * (m - s.estimate) - m == c * (s.estimate - m);
  }

  /**
   * What an update is, without its gain: estimate and measurement weighted by each other's
   * uncertainty, and an uncertainty of half the harmonic mean of both.
   */
  lemma UpdateWeighs(s: State, q: real, r: real, m: real)
    requires s.covariance + q + r != 0.0
    ensures var p, s' := s.covariance + q, Updated(s, q, r, m);
            && (p + r) * s'.estimate == r * s.estimate + p * m
            && (p + r) * s'.covariance == p * r
  {
    var p, s' := s.covariance + q, Updated(s, q, r, m);
    var g := p / (p + r);
    DivMul(p, p + r);
    WeighArithmetic(p, r, g, s.estimate, m, s'.estimate, s'.covariance);
  }

  lemma WeighArithmetic(p: real, r: real, g: real, x: real, m: real, x': real, p': real)
    requires g * (p + r) == p && x' == x + g * (m - x) && p' == (1.0 - g) * p
    ensures (p + r) * x' == r * x + p * m && (p + r) * p' == p * r
  {
    assert (p + r) * (x + g * (m - x)) == (p + r) * x + (g * (p + r)) * (m - x);
    assert (p + r) * ((1.0 - g) * p) == (p + r) * p - (g * (p + r)) * p;
  }

  /** The uncertainty of the estimate when the measurement is let in with gain `g`. */
  function Uncertainty(g: real, predicted: real, r: real): real {
    (1.0 - g) * (1.0 - g) * predicted + g * g * r
  }

  /** The update is the best there is: no gain leaves less uncertainty, and its own leaves what it says. */
  lemma UpdateIsOptimal(s: State, q: real, r: real, m: real, g: real)
    requires s.covariance >= 0.0 && q > 0.0 && r > 0.0
    ensures Updated(s, q, r, m).covariance <= Uncertainty(g, s.covariance + q, r)
    ensures var own := 1.0 - Keep(s.covariance, q, r);
            && Updated(s, q, r, m).covariance == Uncertainty(own, s.covariance + q, r)
            && Updated(s, q, r, m).estimate == s.estimate + own * (m - s.estimate)
  {
    var p, c := s.covariance + q, Keep(s.covariance, q, r);
    KeepFacts(s.covariance, q, r);
    CovarianceIsScaledGain(s, q, r, m);
    UncertaintyGap(c, p, r, g);
    UncertaintyGap(c, p, r, 1.0 - c);
    MulNonNegative(Abs(g - (1.0 - c)), Abs(g - (1.0 - c)));
    MulNonNegative((g - (1.0 - c)) * (g - (1.0 - c)), p + r);
  }

  lemma UncertaintyGap(c: real, p: real, r: real, g: real)
    requires c * (p + r) == r
    ensures Uncertainty(g, p, r) == (1.0 - c) * r + (g - (1.0 - c)) * (g - (1.0 - c)) * (p + r)
  {
    var d := g - (1.0 - c);
    assert Uncertainty(g, p, r) == (c - d) * (c - d) * p + (1.0 - c + d) * (1.0 - c + d) * r;
    assert (c - d) * (c - d) * p == c * c * p - 2.0 * (c * p) * d + d * d * p;
    assert (1.0 - c + d) * (1.0 - c + d) * r == (1.0 - c) * (1.0 - c) * r + 2.0 * ((1.0 - c) * r) * d + d * d * r;
    assert c * p == (1.0 - c) * r;
    assert c * c * p == c * (c * p) && (1.0 - c) * (1.0 - c) * r == (1.0 - c) * ((1.0 - c) * r);
  }

  // ---------- Whole runs ----------

  /** From the first update on the covariance lies strictly between zero and `r`. */
  lemma {:induction false} CovarianceBounded(states: seq<State>, q: real, r: real, ms: seq<real>, k: nat)
    requires IsRun(states, q, r, ms) && k <= |ms|
    ensures states[k].covariance >= 0.0
    ensures k > 0 ==> 0.0 < states[k].covariance < r
  {
    if k > 0 {
      CovarianceBounded(states, q, r, ms, k - 1);
      assert StepOf(states, q, r, ms, k - 1);
      CovarianceIsScaledGain(states[k - 1], q, r, ms[k - 1]);
    }
  }

  lemma UpdateInHull(s: State, q: real, r: real, m: real, lo: real, hi: real)
    requires s.covariance >= 0.0 && q > 0.0 && r > 0.0
    requires lo <= s.estimate <= hi && lo <= m <= hi
    ensures lo <= Updated(s, q, r, m).estimate <= hi
  {
    KeepFacts(s.covariance, q, r);
    HullArithmetic(Keep(s.covariance, q, r), s.estimate, m, Updated(s, q, r, m).estimate, lo, hi) by {
      ErrorAfterUpdate(s, q, r, m);
    }
  }

  lemma HullArithmetic(c: real, x: real, m: real, e: real, lo: real, hi: real)
    requires 0.0 <= c <= 1.0 && e - m == c * (x - m)
    requires lo <= x <= hi && lo <= m <= hi
    ensures lo <= e <= hi
  {
    MulNonNegative(c, x - lo);
    MulNonNegative(1.0 - c, m - lo);
    assert c * (x - m) + (m - lo) == c * (x - lo) + (1.0 - c) * (m - lo);
    MulNonNegative(c, hi - x);
    MulNonNegative(1.0 - c, hi - m);
    assert (hi - m) - c * (x - m) == c * (hi - x) + (1.0 - c) * (hi - m);
  }

  /** Every sequence of measurements has a run: no update divides by zero. */
  lemma {:induction false} RunExists(s: State, q: real, r: real, ms: seq<real>) returns (states: seq<State>)
    requires s.covariance >= 0.0 && q > 0.0 && r > 0.0
    ensures IsRun(states, q, r, ms) && states[0] == s
  {
    if ms == [] {
      states := [s];
    } else {
      var n := |ms| - 1;
      var before := RunExists(s, q, r, ms[..n]);
      CovarianceBounded(before, q, r, ms[..n], n);
      states := before + [Updated(before[n], q, r, ms[n])];
      forall i: nat | i < n ensures StepOf(states, q, r, ms, i) {
        assert StepOf(before, q, r, ms[..n], i);
      }
      assert StepOf(states, q, r, ms, n);
    }
  }

  /** The estimate never leaves the range of the initial estimate and the measurements. */
  lemma {:induction false} EstimateInHull(states: seq<State>, q: real, r: real, ms: seq<real>, lo: real, hi: real, k: nat)
    requires IsRun(states, q, r, ms) && k <= |ms|
    requires lo <= states[0].estimate <= hi && forall i :: 0 <= i < |ms| ==> lo <= ms[i] <= hi
    ensures lo <= states[k].estimate <= hi
  {
    if k > 0 {
      EstimateInHull(states, q, r, ms, lo, hi, k - 1);
      CovarianceBounded(states, q, r, ms, k - 1);
      assert StepOf(states, q, r, ms, k - 1);
      UpdateInHull(states[k - 1], q, r, ms[k - 1], lo, hi);
    }
  }

  lemma RateFacts(q: real, r: real)
    requires q > 0.0 && r > 0.0
    ensures Keep(0.0, q, r) == r / (q + r) && 0.0 < r / (q + r) < 1.0
  {
    KeepFacts(0.0, q, r);
  }

  lemma UpdateConverges(s: State, q: real, r: real, m: real)
    requires s.covariance >= 0.0 && q > 0.0 && r > 0.0
    ensures Abs(Updated(s, q, r, m).estimate - m) <= r / (q + r) * Abs(s.estimate - m)
  {
    var c := Keep(s.covariance, q, r);
    ErrorAfterUpdate(s, q, r, m);
    AbsScale(c, s.estimate - m);
    KeepFacts(s.covariance, q, r);
    KeepBound(s.covariance, q, r);
    ProductMonotone(c, r / (q + r), Abs(s.estimate - m), Abs(s.estimate - m));
  }

  lemma ErrorStep(states: seq<State>, q: real, r: real, ms: seq<real>, i: nat, rho: real)
    requires IsRun(states, q, r, ms) && i < |ms| && rho == r / (q + r)
    ensures Abs(states[i + 1].estimate - ms[i]) <= rho * Abs(states[i].estimate - ms[i])
  {
    CovarianceBounded(states, q, r, ms, i);
    assert StepOf(states, q, r, ms, i);
    UpdateConverges(states[i], q, r, ms[i]);
  }

  /** On a constant signal the error shrinks at least geometrically, by r / (q + r) an update. */
  lemma {:induction false} ConvergesToConstant(states: seq<State>, q: real, r: real, ms: seq<real>, m: real, rho: real, k: nat)
    requires IsRun(states, q, r, ms) && k <= |ms| && rho == r / (q + r)
    requires forall i :: 0 <= i < |ms| ==> ms[i] == m
    ensures Abs(states[k].estimate - m) <= Decayed(Abs(states[0].estimate - m), rho, k)
  {
    if k > 0 {
      ConvergesToConstant(states, q, r, ms, m, rho, k - 1);
      ErrorStep(states, q, r, ms, k - 1, rho);
      RateFacts(q, r);
      DecayStep(Abs(states[k].estimate - m), Abs(states[k - 1].estimate - m), Abs(states[0].estimate - m), rho, k);
    }
  }

  lemma GapAlgebra(c: real, d: real, x: real, y: real, r: real, gap: real)
    requires c * x == r && d * y == r && gap == x - y
    ensures (1.0 - c) * r - (1.0 - d) * r == c * (d * gap)
  {
    assert d * r == d * (c * x) && c * r == c * (d * y);
    assert c * (d * gap) == d * (c * x) - c * (d * y);
  }

  lemma ScaledTwice(c: real, d: real, gap: real, rho: real)
    requires 0.0 <= c <= rho && 0.0 <= d <= rho
    ensures Abs(c * (d * gap)) <= rho * rho * Abs(gap)
  {
    AbsScale(d, gap);
    ProductMonotone(d, rho, Abs(gap), Abs(gap));
    AbsScale(c, d * gap);
    ProductMonotone(c, rho, Abs(d * gap), rho * Abs(gap));
    assert rho * (rho * Abs(gap)) == rho * rho * Abs(gap);
  }

  /** An update scales the gap between two covariances by both of the kept shares. */
  lemma GapAfterUpdate(s: State, t: State, q: real, r: real, m: real, m': real, gap: real)
    requires s.covariance >= 0.0 && t.covariance >= 0.0 && q > 0.0 && r > 0.0
    requires gap == s.covariance - t.covariance
    ensures Updated(s, q, r, m).covariance - Updated(t, q, r, m').covariance
            == Keep(s.covariance, q, r) * (Keep(t.covariance, q, r) * gap)
  {
    var c, d := Keep(s.covariance, q, r), Keep(t.covariance, q, r);
    KeepFacts(s.covariance, q, r);
    KeepFacts(t.covariance, q, r);
    GapAlgebra(c, d, s.covariance + q + r, t.covariance + q + r, r, gap);
    CovarianceIsScaledGain(s, q, r, m);
    CovarianceIsScaledGain(t, q, r, m');
  }

  lemma GapShrinks(s: State, t: State, q: real, r: real, m: real, m': real, gap: real, rho: real)
    requires s.covariance >= 0.0 && t.covariance >= 0.0 && q > 0.0 && r > 0.0
    requires gap == s.covariance - t.covariance && rho == Keep(0.0, q, r)
    ensures Abs(Updated(s, q, r, m).covariance - Updated(t, q, r, m').covariance) <= rho * rho * Abs(gap)
  {
    GapAfterUpdate(s, t, q, r, m, m', gap);
    KeptShares(s.covariance, t.covariance, q, r, rho);
    ScaledTwice(Keep(s.covariance, q, r), Keep(t.covariance, q, r), gap, rho);
  }

  lemma KeptShares(c: real, d: real, q: real, r: real, rho: real)
    requires c >= 0.0 && d >= 0.0 && q > 0.0 && r > 0.0 && rho == Keep(0.0, q, r)
    ensures 0.0 <= Keep(c, q, r) <= rho && 0.0 <= Keep(d, q, r) <= rho
  {
    KeepFacts(c, q, r);
    KeepFacts(d, q, r);
    KeepBound(c, q, r);
    KeepBound(d, q, r);
  }

  lemma GapStep(states: seq<State>, others: seq<State>, q: real, r: real, ms: seq<real>, ns: seq<real>, i: nat, rho: real)
    requires IsRun(states, q, r, ms) && IsRun(others, q, r, ns) && i < |ms| && i < |ns|
    requires rho == Keep(0.0, q, r)
    ensures Abs(states[i + 1].covariance - others[i + 1].covariance)
            <= rho * rho * Abs(states[i].covariance - others[i].covariance)
  {
    CovarianceBounded(states, q, r, ms, i);
    CovarianceBounded(others, q, r, ns, i);
    assert StepOf(states, q, r, ms, i) && StepOf(others, q, r, ns, i);
    var s, t := states[i], others[i];
    assert states[i + 1] == Updated(s, q, r, ms[i]) && others[i + 1] == Updated(t, q, r, ns[i]);
    GapShrinks(s, t, q, r, ms[i], ns[i], s.covariance - t.covariance, rho);
  }

  /** Two filters on the same noise forget their initial covariances, by that share squared. */
  lemma {:induction false} CovarianceGapShrinks(states: seq<State>, others: seq<State>, q: real, r: real,
                                                ms: seq<real>, ns: seq<real>, rate: real, k: nat)
    requires IsRun(states, q, r, ms) && IsRun(others, q, r, ns) && k <= |ms| && k <= |ns|
    requires rate == (r / (q + r)) * (r / (q + r))
    ensures Abs(states[k].covariance - others[k].covariance)
            <= Decayed(Abs(states[0].covariance - others[0].covariance), rate, k)
  {
    if k > 0 {
      CovarianceGapShrinks(states, others, q, r, ms, ns, rate, k - 1);
      RateFacts(q, r);
      GapStep(states, others, q, r, ms, ns, k - 1, Keep(0.0, q, r));
      MulNonNegative(r / (q + r), r / (q + r));
      DecayStep(Abs(states[k].covariance - others[k].covariance),
                Abs(states[k - 1].covariance - others[k - 1].covariance),
                Abs(states[0].covariance - others[0].covariance), rate, k);
    }
  }

  /** The filter as the source writes it. */
  class KalmanFilter1D {
    var estimate: real
    var errorCovariance: real
    var processNoise: real
    var measurementNoise: real

    ghost function View(): State
      reads this
    {
      State(estimate, errorCovariance)
    }

    constructor (initialEstimate: real, initialError: real, q: real, r: real)
      ensures View() == State(initialEstimate, initialError) && processNoise == q && measurementNoise == r
    {
      estimate, errorCovariance, processNoise, measurementNoise := initialEstimate, initialError, q, r;
    }

    method Update(measurement: real) returns (x: real)
      requires errorCovariance + processNoise + measurementNoise != 0.0
      modifies this`estimate, this`errorCovariance
      ensures View() == Updated(old(View()), processNoise, measurementNoise, measurement)
      ensures x == estimate
    {
      var predictedCovariance := errorCovariance + processNoise;
      var kalmanGain := predictedCovariance / (predictedCovariance + measurementNoise);
      estimate := estimate + kalmanGain * (measurement - estimate);
      errorCovariance := (1.0 - kalmanGain) * predictedCovariance;
      x := estimate;
    }

    method Reset()
      modifies this`estimate, this`errorCovariance
      ensures View() == State(0.0, 1.0)
    {
      estimate, errorCovariance := 0.0, 1.0;
    }
  }
}
