/** The exponential moving average over exact reals. */
module ExponentialAverage {
  import opened Wrappers
  import opened Sums
  import opened RealFacts

  /** The exponential average of a nonempty sequence. */
  function Ema(alpha: real, samples: seq<real>): real
    requires samples != []
  {
    if |samples| == 1 then samples[0]
    else samples[|samples| - 1] * alpha + Ema(alpha, samples[..|samples| - 1]) * (1.0 - alpha)
  }

  /**
   * What each sample weighs: the newest alpha, each earlier one (1 - alpha) times its successor,
   * the first all the rest.
   */
  function Faded(alpha: real, samples: seq<real>): (terms: seq<real>)
    ensures |terms| == |samples|
  {
    seq(|samples|, i requires 0 <= i < |samples| => FadedSample(alpha, samples, i))
  }

  function FadedSample(alpha: real, samples: seq<real>, i: nat): real
    requires i < |samples|
  {
    Decayed(Share(alpha, samples[i], i == 0), 1.0 - alpha, |samples| - 1 - i)
  }

  /** What a sample contributes when it comes in. */
  function Share(alpha: real, x: real, first: bool): real {
    if first then x else alpha * x
  }

  lemma SampleFades(alpha: real, samples: seq<real>, i: nat)
    requires i + 1 < |samples|
    ensures FadedSample(alpha, samples, i) == FadedSample(alpha, samples[..|samples| - 1], i) * (1.0 - alpha)
  {
    var before, k := samples[..|samples| - 1], |samples| - 2 - i;
    assert FadedSample(alpha, before, i) == Decayed(Share(alpha, samples[i], i == 0), 1.0 - alpha, k);
  }

  lemma NewestFades(alpha: real, samples: seq<real>)
    requires |samples| > 1
    ensures FadedSample(alpha, samples, |samples| - 1) == alpha * samples[|samples| - 1]
  {
  }

  function Times(x: real, c: real): real {
    x * c
  }

  function Scaled(xs: seq<real>, c: real): (r: seq<real>)
    ensures |r| == |xs|
  {
    seq(|xs|, i requires 0 <= i < |xs| => Times(xs[i], c))
  }

  lemma {:induction false} ScaledTotal(xs: seq<real>, c: real)
    ensures TotalReal(Scaled(xs, c)) == TotalReal(xs) * c
  {
    if xs != [] {
      var n := |xs| - 1;
      ScaledTotal(xs[..n], c);
      assert Scaled(xs, c)[..n] == Scaled(xs[..n], c);
      assert (TotalReal(xs[..n]) + xs[n]) * c == TotalReal(xs[..n]) * c + xs[n] * c;
    }
  }

  /** A further sample fades those before it and adds its own share. */
  lemma FadedSnoc(alpha: real, samples: seq<real>)
    requires |samples| > 1
    ensures var n := |samples| - 1;
            Faded(alpha, samples)[..n] == Scaled(Faded(alpha, samples[..n]), 1.0 - alpha)
    ensures Faded(alpha, samples)[|samples| - 1] == alpha * samples[|samples| - 1]
  {
    var n := |samples| - 1;
    forall i | 0 <= i < n ensures Faded(alpha, samples)[i] == Scaled(Faded(alpha, samples[..n]), 1.0 - alpha)[i] {
      SampleFades(alpha, samples, i);
    }
    NewestFades(alpha, samples);
  }

  /**
   * The closed form: sample i of n weighs alpha * (1 - alpha)^(n - 1 - i), and the first one
   * (1 - alpha)^(n - 1).
   */
  lemma {:induction false} EmaIsWeighted(alpha: real, samples: seq<real>)
    requires samples != []
    ensures Ema(alpha, samples) == TotalReal(Faded(alpha, samples))
  {
    var n := |samples| - 1;
    var terms := Faded(alpha, samples);
    if n == 0 {
      assert terms[..0] == [] && terms[0] == samples[0];
    } else {
      EmaIsWeighted(alpha, samples[..n]);
      FadedSnoc(alpha, samples);
      ScaledTotal(Faded(alpha, samples[..n]), 1.0 - alpha);
    }
  }

  /** Changing the newest of several samples by `d` changes the result by alpha * d. */
  lemma NewestWeighsAlpha(alpha: real, samples: seq<real>, x: real, d: real)
    requires samples != []
    ensures Ema(alpha, samples + [x + d]) == Ema(alpha, samples + [x]) + alpha * d
  {
    assert (samples + [x])[..|samples|] == samples && (samples + [x + d])[..|samples|] == samples;
    assert (x + d) * alpha == x * alpha + alpha * d;
  }

  lemma FadeOnce(alpha: real, b: real, gap: real)
    ensures b * alpha + (b + gap) * (1.0 - alpha) == b + (1.0 - alpha) * gap
  {
    assert (b + gap) * (1.0 - alpha) == b - b * alpha + (1.0 - alpha) * gap;
  }

  /** After one sample `a` and `k` samples `b`, the distance from `b` has faded `k` times. */
  lemma {:induction false} StepResponse(alpha: real, a: real, b: real, k: nat)
    ensures Ema(alpha, [a] + seq(k, _ => b)) == b + Decayed(a - b, 1.0 - alpha, k)
  {
    var samples := [a] + seq(k, _ => b);
    if k == 0 {
      assert samples == [a];
    } else {
      StepResponse(alpha, a, b, k - 1);
      assert samples[..k] == [a] + seq(k - 1, _ => b) && samples[k] == b;
      FadeOnce(alpha, b, Decayed(a - b, 1.0 - alpha, k - 1));
    }
  }

  lemma MixInHull(alpha: real, x: real, prev: real, lo: real, hi: real)
    requires 0.0 < alpha <= 1.0 && lo <= x <= hi && lo <= prev <= hi
    ensures lo <= x * alpha + prev * (1.0 - alpha) <= hi
  {
    MulNonNegative(alpha, x - lo);
    MulNonNegative(alpha, hi - x);
    MulNonNegative(1.0 - alpha, prev - lo);
    MulNonNegative(1.0 - alpha, hi - prev);
    assert x * alpha + prev * (1.0 - alpha) - lo == alpha * (x - lo) + (1.0 - alpha) * (prev - lo);
    assert hi - (x * alpha + prev * (1.0 - alpha)) == alpha * (hi - x) + (1.0 - alpha) * (hi - prev);
  }

  /** It never leaves the range of the samples. */
  lemma {:induction false} EmaInHull(alpha: real, samples: seq<real>, lo: real, hi: real)
    requires 0.0 < alpha <= 1.0 && samples != []
    requires forall i :: 0 <= i < |samples| ==> lo <= samples[i] <= hi
    ensures lo <= Ema(alpha, samples) <= hi
  {
    if |samples| > 1 {
      EmaInHull(alpha, samples[..|samples| - 1], lo, hi);
      MixInHull(alpha, samples[|samples| - 1], Ema(alpha, samples[..|samples| - 1]), lo, hi);
    }
  }

  class ExponentialMovingAverage {
    const alpha: real
    var value: Option<real>

    ghost var samples: seq<real>

    ghost predicate Valid()
      reads this
    {
      0.0 < alpha <= 1.0 && value == if samples == [] then None else Some(Ema(alpha, samples))
    }

    /** The source refuses a smoothing factor outside of (0, 1]. */
    constructor (alpha: real)
      requires 0.0 < alpha <= 1.0
      ensures Valid() && this.alpha == alpha && samples == []
    {
      this.alpha, value := alpha, None;
      samples := [];
    }

    method Process(input: real) returns (r: real)
      requires Valid()
      modifies this
      ensures Valid() && samples == old(samples) + [input]
      ensures r == Ema(alpha, samples) == TotalReal(Faded(alpha, samples))
    {
      ghost var after := samples + [input];
      assert after[..|samples|] == samples;
      match value {
        case Some(prev) =>
          r := input * alpha + prev * (1.0 - alpha);
          assert r == Ema(alpha, after);
        case None =>
          r := input;
          assert r == Ema(alpha, after);
      }
      value := Some(r);
      samples := after;
      EmaIsWeighted(alpha, samples);
    }

    method Reset()
      requires Valid()
      modifies this
      ensures Valid() && samples == []
    {
      value := None;
      samples := [];
    }
  }
}
