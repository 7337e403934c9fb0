/** The bit-level index arithmetic of the ring buffer, on natural numbers. */
module Bits {
  /** One more than the largest `usize` of a 64-bit target. */
  const WORD_MODULUS: nat := 0x1_0000_0000_0000_0000

  function Pow2(k: nat): (r: nat)
    ensures r >= 1
  {
    if k == 0 then 1 else 2 * Pow2(k - 1)
  }

  /** Bitwise conjunction, least significant bit first. */
  function BitAnd(a: nat, b: nat): nat {
    if a == 0 || b == 0 then 0 else (a % 2) * (b % 2) + 2 * BitAnd(a / 2, b / 2)
  }

  /** The condition that the source asserts of a buffer size at compile time. */
  predicate IsPowerOfTwo(n: nat) {
    n > 0 && BitAnd(n, n - 1) == 0
  }

  /** Unsigned subtraction that wraps around at the word size. */
  function WrappingSub(a: nat, b: nat): (r: nat)
    requires a < WORD_MODULUS && b < WORD_MODULUS
    ensures r < WORD_MODULUS
    ensures (r + b) % WORD_MODULUS == a
  {
    if a >= b then a - b else a + WORD_MODULUS - b
  }

  lemma BitSquare(bit: nat)
    requires bit < 2
    ensures bit * bit == bit
  {
    assert bit == 0 || bit == 1;
  }

  lemma {:induction false} BitAndSelf(a: nat)
    ensures BitAnd(a, a) == a
  {
    if a > 0 {
      BitAndSelf(a / 2);
      BitSquare(a % 2);
      assert BitAnd(a, a) == a % 2 + 2 * BitAnd(a / 2, a / 2);
    }
  }

  /** Masking with a power of two less one is reduction modulo that power. */
  lemma {:induction false} MaskIsMod(a: nat, k: nat)
    ensures BitAnd(a, Pow2(k) - 1) == a % Pow2(k)
  {
    if k > 0 && a > 0 {
      var m := Pow2(k - 1);
      assert (2 * m - 1) / 2 == m - 1 && (2 * m - 1) % 2 == 1;
      MaskIsMod(a / 2, k - 1);
      ModOfDouble(a, m);
    } else if k > 0 {
      assert 0 % Pow2(k) == 0;
    }
  }

  lemma ModOfDouble(a: nat, m: nat)
    requires m > 0
    ensures a % (2 * m) == a % 2 + 2 * ((a / 2) % m)
  {
    var q, r := a / 2 / m, a / 2 % m;
    assert a / 2 == m * q + r;
    assert a == (2 * m) * q + (a % 2 + 2 * r);
    ModUnique(a, 2 * m, q, a % 2 + 2 * r);
  }

  /** A multiple of `n` that lies strictly between `-n` and `n` is zero. */
  lemma SmallMultiple(n: int, d: int)
    requires n >= 0 && -n < n * d < n
    ensures d == 0
  {
    if d > 0 {
      MulNonNeg(n, d - 1);
    } else if d < 0 {
      MulNonNeg(n, -d - 1);
    }
  }

  lemma MulNonNeg(a: int, b: int)
    requires a >= 0 && b >= 0
    ensures a * b >= 0
  {
  }

  lemma ModUnique(a: int, n: nat, q: int, r: nat)
    requires r < n
    requires a == n * q + r
    ensures a % n == r && a / n == q
  {
    var q', r' := a / n, a % n;
    assert n * (q - q') == r' - r by {
      assert a == n * q' + r';
      assert n * (q - q') == n * q - n * q';
    }
    SmallMultiple(n, q - q');
  }

  /** The slot of a circular buffer that a counter falls into. */
  function SlotOf(k: nat, size: nat): (slot: nat)
    requires size > 0
    ensures slot < size
  {
    k % size
  }

  /** Two counters less than one lap apart that share a slot are equal. */
  lemma ModInjective(a: nat, b: nat, n: nat)
    requires n > 0
    requires a <= b < a + n
    requires a % n == b % n
    ensures a == b
  {
    var d := b / n - a / n;
    assert b - a == n * d by {
      assert a == n * (a / n) + a % n && b == n * (b / n) + b % n;
      assert n * d == n * (b / n) - n * (a / n);
    }
    SmallMultiple(n, d);
  }

  lemma ModAddLap(a: nat, n: nat)
    requires n > 0
    ensures (a + n) % n == a % n
  {
    ModUnique(a + n, n, a / n + 1, a % n);
  }

  lemma ModAdd(a: nat, b: nat, n: nat)
    requires n > 0
    ensures (a % n + b) % n == (a + b) % n
  {
    var r := (a % n + b) % n;
    var q := (a % n + b) / n;
    assert a + b == n * (a / n + q) + r;
    ModUnique(a + b, n, a / n + q, r);
  }

  lemma ModSucc(a: nat, n: nat)
    requires n > 0
    ensures (a % n + 1) % n == (a + 1) % n
  {
    ModAdd(a, 1, n);
  }

  lemma {:induction false} ExponentOf(n: nat) returns (k: nat)
    requires IsPowerOfTwo(n)
    ensures n == Pow2(k)
  {
    if n == 1 {
      k := 0;
    } else if n % 2 == 1 {
      assert (n - 1) / 2 == n / 2 && (n - 1) % 2 == 0;
      BitAndSelf(n / 2);
      assert false;
    } else {
      assert n - 1 == 2 * (n / 2 - 1) + 1;
      assert (n - 1) / 2 == n / 2 - 1;
      k := ExponentOf(n / 2);
      k := k + 1;
    }
  }

  lemma PowersPass(k: nat)
    ensures IsPowerOfTwo(Pow2(k))
  {
    MaskIsMod(Pow2(k), k);
    ModUnique(Pow2(k), Pow2(k), 1, 0);
  }

  /** The compile-time assertion accepts exactly the powers of two. */
  lemma PowerOfTwoIff(n: nat)
    ensures IsPowerOfTwo(n) <==> exists k: nat :: n == Pow2(k)
  {
    if IsPowerOfTwo(n) {
      var k := ExponentOf(n);
    }
    if exists k: nat :: n == Pow2(k) {
      var k: nat :| n == Pow2(k);
      PowersPass(k);
    }
  }

  lemma {:induction false} Pow2Splits(a: nat, b: nat)
    ensures Pow2(a + b) == Pow2(a) * Pow2(b)
  {
    if a > 0 {
      Pow2Splits(a - 1, b);
      assert Pow2(a + b) == 2 * (Pow2(a - 1) * Pow2(b));
    }
  }

  lemma WordIsPow2()
    ensures Pow2(64) == WORD_MODULUS
  {
    assert Pow2(4) == 16;
    Pow2Splits(4, 4);
    assert Pow2(8) == 256;
    Pow2Splits(8, 8);
    assert Pow2(16) == 0x1_0000;
    Pow2Splits(16, 16);
    assert Pow2(32) == 0x1_0000_0000;
    Pow2Splits(32, 32);
  }

  lemma {:induction false} Pow2Monotone(a: nat, b: nat)
    requires a < b
    ensures 2 * Pow2(a) <= Pow2(b)
  {
    if a + 1 < b {
      Pow2Monotone(a, b - 1);
    }
  }

  /**
   * Wrap-around subtraction of two slot indices followed by the mask gives the distance
   * of the unbounded counters behind them, for every power-of-two size of the word.
   */
  lemma WrappedDistance(h: nat, t: nat, n: nat)
    requires IsPowerOfTwo(n) && n <= WORD_MODULUS
    requires t <= h < t + n
    ensures h % n < WORD_MODULUS && t % n < WORD_MODULUS
    ensures BitAnd(WrappingSub(h % n, t % n), n - 1) == h - t
  {
    PowerOfTwoIff(n);
    var k: nat :| n == Pow2(k);
    var laps := LapsPerWord(k);
    MaskIsMod(WrappingSub(h % n, t % n), k);
    var w := if h % n >= t % n then 0 else laps;
    assert WrappingSub(h % n, t % n) == h % n - t % n + n * w;
    ShiftByLaps(h, t, n, w);
  }

  lemma LapsPerWord(k: nat) returns (laps: nat)
    requires Pow2(k) <= WORD_MODULUS
    ensures Pow2(k) * laps == WORD_MODULUS
  {
    WordIsPow2();
    if k > 64 {
      Pow2Monotone(64, k);
    }
    laps := Pow2(64 - k);
    Pow2Splits(k, 64 - k);
  }

  lemma ShiftByLaps(h: nat, t: nat, n: nat, w: int)
    requires 0 < n && t <= h < t + n
    ensures (h % n - t % n + n * w) % n == h - t
  {
    var q := t / n - h / n + w;
    assert n * q == n * (t / n) - n * (h / n) + n * w;
    ModUnique(h % n - t % n + n * w, n, q, h - t);
  }
}
