/** Products and quotients of reals, one small step at a time. */
module RealFacts {
  function Abs(x: real): real {
    if x < 0.0 then -x else x
  }

  /** `x` scaled by `rate` `n` times. */
  function Decayed(x: real, rate: real, n: nat): real {
    if n == 0 then x else rate * Decayed(x, rate, n - 1)
  }

  lemma MulNonNegative(a: real, b: real)
    requires a >= 0.0 && b >= 0.0
    ensures a * b >= 0.0
  {
  }

  lemma MulPositive(a: real, b: real)
    requires a > 0.0 && b > 0.0
    ensures a * b > 0.0
  {
  }

  lemma Cancel(x: real, y: real, d: real)
    requires d > 0.0 && x * d == y * d
    ensures x == y
  {
    if x < y {
      MulPositive(y - x, d);
    } else if y < x {
      MulPositive(x - y, d);
    }
  }

  lemma CancelLess(x: real, y: real, d: real)
    requires d > 0.0 && x * d <= y * d
    ensures x <= y
  {
    if y < x {
      MulPositive(x - y, d);
    }
  }

  lemma DivMul(x: real, d: real)
    requires d != 0.0
    ensures (x / d) * d == x
  {
  }

  lemma AbsScale(c: real, x: real)
    requires c >= 0.0
    ensures Abs(c * x) == c * Abs(x)
  {
    MulNonNegative(c, Abs(x));
    if x < 0.0 {
      assert c * x == -(c * -x);
    }
  }

  lemma ProductMonotone(a: real, b: real, c: real, d: real)
    requires 0.0 <= a <= b && 0.0 <= c <= d
    ensures 0.0 <= a * c <= b * d
  {
    MulNonNegative(a, c);
    MulNonNegative(b - a, c);
    MulNonNegative(b, d - c);
    assert b * d - a * c == (b - a) * c + b * (d - c);
  }

  /** One more shrinking step under a geometric bound. */
  lemma DecayStep(y: real, x: real, x0: real, rate: real, k: nat)
    requires k > 0 && rate >= 0.0 && 0.0 <= x <= Decayed(x0, rate, k - 1) && y <= rate * x
    ensures y <= Decayed(x0, rate, k)
  {
    ProductMonotone(rate, rate, x, Decayed(x0, rate, k - 1));
  }
}
