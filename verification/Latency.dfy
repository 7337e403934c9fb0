/** The bucketed latency histogram against the list of samples recorded in it. */
module Latency {
  import opened Wrappers
  import opened Bits
  import opened RealFacts

  const NUM_BUCKETS: nat := 64

  /** The position of the highest set bit. */
  function Log2(v: nat): nat
    requires v > 0
  {
    if v == 1 then 0 else 1 + Log2(v / 2)
  }

  function Min(a: nat, b: nat): nat {
    if a <= b then a else b
  }

  function Max(a: nat, b: nat): nat {
    if a >= b then a else b
  }

  function BucketFor(v: nat): (b: nat)
    ensures b < NUM_BUCKETS
  {
    if v == 0 then 0 else Min(Log2(v) * 10 / 3, NUM_BUCKETS - 1)
  }

  function LatencyForBucket(bucket: nat): nat {
    if bucket == 0 then 0 else Pow2(bucket * 3 / 10)
  }

  /** The sample a bucket stands for is reported as this value. */
  function Representative(v: nat): nat {
    LatencyForBucket(BucketFor(v))
  }

  // ---------- Samples and ranks ----------

  function CountIn(samples: seq<nat>, bucket: nat): nat {
    if samples == [] then 0
    else CountIn(samples[..|samples| - 1], bucket) + if BucketFor(samples[|samples| - 1]) == bucket then 1 else 0
  }

  function CountUpTo(samples: seq<nat>, bucket: nat): nat {
    if samples == [] then 0
    else CountUpTo(samples[..|samples| - 1], bucket) + if BucketFor(samples[|samples| - 1]) <= bucket then 1 else 0
  }

  function MinOf(samples: seq<nat>): nat {
    if samples == [] then U64_MAX else Min(MinOf(samples[..|samples| - 1]), samples[|samples| - 1])
  }

  function MaxOf(samples: seq<nat>): nat {
    if samples == [] then 0 else Max(MaxOf(samples[..|samples| - 1]), samples[|samples| - 1])
  }

  function Ceil(x: real): int {
    -((-x).Floor)
  }

  /** The rank that `percentile` looks for among `count` samples. */
  function Target(count: nat, p: real): (t: nat)
    requires 0.0 <= p <= 1.0
    ensures t <= count
  {
    var x := count as real * p;
    assert 0.0 <= x <= count as real;
    Ceil(x)
  }

  /** The first bucket from `b` on at which the cumulative count reaches the target. */
  function FirstBucket(samples: seq<nat>, target: nat, b: nat): (r: nat)
    requires b < NUM_BUCKETS
    ensures b <= r < NUM_BUCKETS
    decreases NUM_BUCKETS - b
  {
    if b == NUM_BUCKETS - 1 || CountUpTo(samples, b) >= target then b else FirstBucket(samples, target, b + 1)
  }

  function Percentile(samples: seq<nat>, p: real): nat
    requires 0.0 <= p <= 1.0
  {
    if samples == [] then 0 else LatencyForBucket(FirstBucket(samples, Target(|samples|, p), 0))
  }

  predicate IsSorted(s: seq<nat>) {
    forall i, j :: 0 <= i <= j < |s| ==> s[i] <= s[j]
  }

  // ---------- Buckets ----------

  lemma {:induction false} Log2Brackets(v: nat)
    requires v > 0
    ensures Pow2(Log2(v)) <= v < Pow2(Log2(v) + 1)
  {
    if v > 1 {
      Log2Brackets(v / 2);
    }
  }

  lemma {:induction false} Log2Monotone(v: nat, w: nat)
    requires 0 < v <= w
    ensures Log2(v) <= Log2(w)
  {
    if v > 1 {
      Log2Monotone(v / 2, w / 2);
    }
  }

  lemma BucketMonotone(v: nat, w: nat)
    requires v <= w
    ensures BucketFor(v) <= BucketFor(w)
  {
    if v > 0 {
      Log2Monotone(v, w);
    }
  }

  lemma PowMonotone(a: nat, b: nat)
    requires a <= b
    ensures Pow2(a) <= Pow2(b)
  {
    if a < b {
      Pow2Monotone(a, b);
    }
  }

  lemma RepresentativeMonotone(a: nat, b: nat)
    requires a <= b
    ensures LatencyForBucket(a) <= LatencyForBucket(b)
  {
    PowMonotone(a * 3 / 10, b * 3 / 10);
  }

  /** The highest set bit against the two ends of the range in which reports are useful. */
  lemma HighestBit(v: nat, m: nat)
    requires Pow2(m) <= v < Pow2(m + 1)
    ensures m < 19 <==> v < 0x8_0000
    ensures m < 20 <==> v < 0x10_0000
  {
    PowersAtTheTop();
    PowMonotone(if m < 19 then m + 1 else 19, if m < 19 then 19 else m);
    PowMonotone(if m < 20 then m + 1 else 20, if m < 20 then 20 else m);
  }

  lemma PowersAtTheTop()
    ensures Pow2(18) == 0x4_0000 && Pow2(19) == 0x8_0000 && Pow2(20) == 0x10_0000
  {
    assert Pow2(9) == 512;
    Pow2Splits(9, 9);
  }

  /** Where the exponent that a bucket reports lies, for a highest set bit `m`. */
  lemma ExponentBounds(m: nat)
    ensures var e := Min(m * 10 / 3, NUM_BUCKETS - 1) * 3 / 10;
            && e <= m
            && (1 <= m < 20 ==> m * 10 / 3 > 0 && e >= m - 1)
            && (m >= 19 ==> e == 18)
  {
  }

  /** A sample with highest set bit `m` is reported as 2^e. */
  lemma ReportedExponent(v: nat) returns (m: nat, e: nat)
    requires v >= 2
    ensures 1 <= m && Pow2(m) <= v < Pow2(m + 1) && Representative(v) == Pow2(e)
    ensures e <= m && (m < 20 ==> e >= m - 1) && (m >= 19 ==> e == 18)
  {
    m, e := Log2(v), BucketFor(v) * 3 / 10;
    Log2Brackets(v);
    ExponentBounds(m);
  }

  lemma WithinQuarter(v: nat, m: nat, e: nat)
    requires v < Pow2(m + 1) && 1 <= m <= e + 1
    ensures v < 4 * Pow2(e)
  {
    PowMonotone(m - 1, e);
    assert Pow2(m + 1) == 4 * Pow2(m - 1);
  }

  /**
   * What a bucket reports: never more than the sample, more than a quarter of it from 2 ns to
   * 2^20 ns, zero below 2 ns, and 2^18 ns for everything from 2^19 ns on.
   */
  lemma RepresentativeBounds(v: nat)
    ensures Representative(v) <= v
    ensures 2 <= v < 0x10_0000 ==> v < 4 * Representative(v)
    ensures v < 2 ==> Representative(v) == 0
    ensures v >= 0x8_0000 ==> Representative(v) == 0x4_0000
  {
    if v >= 2 {
      var m, e := ReportedExponent(v);
      HighestBit(v, m);
      PowMonotone(e, m);
      if v < 0x10_0000 {
        WithinQuarter(v, m, e);
      }
      if v >= 0x8_0000 {
        PowersAtTheTop();
      }
    }
  }

  lemma HighestBitIs(v: nat, m: nat)
    requires Pow2(m) <= v < Pow2(m + 1)
    ensures v > 0 && Log2(v) == m
  {
    Log2Brackets(v);
    var l := Log2(v);
    if l < m {
      PowMonotone(l + 1, m);
    } else if m < l {
      PowMonotone(m + 1, l);
    }
  }

  lemma ExponentIs(m: nat)
    requires m >= 1
    ensures Min(m * 10 / 3, NUM_BUCKETS - 1) > 0
    ensures Min(m * 10 / 3, NUM_BUCKETS - 1) * 3 / 10 == if m >= 19 then 18 else if m % 3 == 0 then m else m - 1
  {
  }

  /**
   * Exactly: with highest set bit m >= 1 a sample is reported as 2^m if m is a multiple of three
   * and as 2^(m - 1) if not, and as 2^18 from m = 19 on.
   */
  lemma RepresentativeIs(v: nat, m: nat)
    requires m >= 1 && Pow2(m) <= v < Pow2(m + 1)
    ensures Representative(v) == Pow2(if m >= 19 then 18 else if m % 3 == 0 then m else m - 1)
  {
    HighestBitIs(v, m);
    ExponentIs(m);
  }

  // ---------- Ranks ----------

  lemma {:induction false} CountUpToBound(samples: seq<nat>, b: nat)
    ensures CountUpTo(samples, b) <= |samples|
  {
    if samples != [] {
      CountUpToBound(samples[..|samples| - 1], b);
    }
  }

  lemma {:induction false} CountUpToAll(samples: seq<nat>, b: nat)
    requires forall i :: 0 <= i < |samples| ==> BucketFor(samples[i]) <= b
    ensures CountUpTo(samples, b) == |samples|
  {
    if samples != [] {
      CountUpToAll(samples[..|samples| - 1], b);
    }
  }

  /** The cumulative count is one bucket more than the cumulative count below. */
  lemma {:induction false} CountUpToStep(samples: seq<nat>, b: nat)
    ensures CountUpTo(samples, b) == CountIn(samples, b) + if b == 0 then 0 else CountUpTo(samples, b - 1)
  {
    if samples != [] {
      CountUpToStep(samples[..|samples| - 1], b);
    }
  }

  lemma {:induction false} CountUpToRemove(samples: seq<nat>, j: nat, b: nat)
    requires j < |samples|
    ensures CountUpTo(samples, b)
            == CountUpTo(samples[..j] + samples[j + 1..], b) + if BucketFor(samples[j]) <= b then 1 else 0
  {
    var before := samples[..|samples| - 1];
    if j == |samples| - 1 {
      assert samples[..j] + samples[j + 1..] == before;
    } else {
      CountUpToRemove(before, j, b);
      var rest := samples[..j] + samples[j + 1..];
      assert rest[..|rest| - 1] == before[..j] + before[j + 1..];
    }
  }

  lemma RemoveOne(s: seq<nat>, t: seq<nat>) returns (j: nat)
    requires s != [] && multiset(s) == multiset(t)
    ensures j < |t| && t[j] == s[|s| - 1]
    ensures multiset(s[..|s| - 1]) == multiset(t[..j] + t[j + 1..])
  {
    var before, last := s[..|s| - 1], s[|s| - 1];
    assert s == before + [last];
    assert last in multiset(t);
    j :| 0 <= j < |t| && t[j] == last;
    assert t == t[..j] + [last] + t[j + 1..];
    assert multiset(before) == multiset(s) - multiset{last};
    assert multiset(t[..j] + t[j + 1..]) == multiset(t) - multiset{last};
  }

  lemma {:induction false} CountUpToPermutation(s: seq<nat>, t: seq<nat>, b: nat)
    requires multiset(s) == multiset(t)
    ensures CountUpTo(s, b) == CountUpTo(t, b)
  {
    assert |multiset(s)| == |s| && |multiset(t)| == |t|;
    if s != [] {
      var j := RemoveOne(s, t);
      CountUpToPermutation(s[..|s| - 1], t[..j] + t[j + 1..], b);
      CountUpToRemove(t, j, b);
    }
  }

  /** In a sorted list, the cumulative count reaches a rank at the bucket of that rank. */
  lemma {:induction false} RankReached(sorted: seq<nat>, target: nat, b: nat)
    requires IsSorted(sorted) && 1 <= target <= |sorted|
    ensures CountUpTo(sorted, b) >= target <==> BucketFor(sorted[target - 1]) <= b
  {
    var before, last := sorted[..|sorted| - 1], sorted[|sorted| - 1];
    if BucketFor(last) <= b {
      forall i | 0 <= i < |sorted| ensures BucketFor(sorted[i]) <= b {
        BucketMonotone(sorted[i], last);
      }
      CountUpToAll(sorted, b);
    } else {
      CountUpToBound(before, b);
      if target < |sorted| {
        RankReached(before, target, b);
      }
    }
  }

  lemma {:induction false} FirstBucketIsLeast(samples: seq<nat>, target: nat, b: nat, r: nat)
    requires b <= r < NUM_BUCKETS
    requires forall i: nat :: b <= i < NUM_BUCKETS ==> (CountUpTo(samples, i) >= target <==> r <= i)
    ensures FirstBucket(samples, target, b) == r
    decreases NUM_BUCKETS - b
  {
    if b < r {
      FirstBucketIsLeast(samples, target, b + 1, r);
    }
  }

  // ---------- Which sample is reported ----------

  /** The rank looked for is the share p of the samples, rounded up. */
  lemma TargetIs(count: nat, p: real)
    requires 0.0 <= p <= 1.0
    ensures count as real * p <= Target(count, p) as real < count as real * p + 1.0
    ensures Target(count, p) == 0 <==> count == 0 || p == 0.0
  {
    var x := count as real * p;
    assert Target(count, p) == -((-x).Floor);
    if count > 0 && p > 0.0 {
      MulPositive(count as real, p);
    } else {
      assert x == 0.0;
    }
  }

  lemma RankIsUnique(x: real, t: nat, u: nat)
    requires x <= t as real < x + 1.0 && x <= u as real < x + 1.0
    ensures t == u
  {
  }

  /** Enough samples for the share p are as many as the target. */
  lemma ShareReached(count: nat, p: real, a: nat)
    requires 0.0 <= p <= 1.0
    ensures a as real >= count as real * p <==> a >= Target(count, p)
  {
    TargetIs(count, p);
  }

  /** How many samples are at most `v`. */
  function AtMost(samples: seq<nat>, v: nat): nat {
    if samples == [] then 0
    else AtMost(samples[..|samples| - 1], v) + if samples[|samples| - 1] <= v then 1 else 0
  }

  /** The least sample with at least the share `p` of all samples at or below it. */
  ghost predicate IsQuantile(samples: seq<nat>, p: real, v: nat) {
    && v in samples && AtMost(samples, v) as real >= |samples| as real * p
    && forall w :: w in samples && w < v ==> (AtMost(samples, w) as real) < |samples| as real * p
  }

  /** The least sample with at least `t` samples at or below it. */
  ghost predicate IsLeastReaching(samples: seq<nat>, t: nat, v: nat) {
    && v in samples && AtMost(samples, v) >= t
    && forall w :: w in samples && w < v ==> AtMost(samples, w) < t
  }

  lemma QuantileIsLeast(samples: seq<nat>, p: real, v: nat)
    requires 0.0 <= p <= 1.0
    ensures IsQuantile(samples, p, v) <==> IsLeastReaching(samples, Target(|samples|, p), v)
  {
    ShareReached(|samples|, p, AtMost(samples, v));
    forall w
      ensures (AtMost(samples, w) as real) < |samples| as real * p <==> AtMost(samples, w) < Target(|samples|, p)
    {
      ShareReached(|samples|, p, AtMost(samples, w));
    }
  }

  lemma {:induction false} AtMostIsCovered(samples: seq<nat>, v: nat)
    ensures AtMost(samples, v) <= CountUpTo(samples, BucketFor(v))
  {
    if samples != [] {
      AtMostIsCovered(samples[..|samples| - 1], v);
      if samples[|samples| - 1] <= v {
        BucketMonotone(samples[|samples| - 1], v);
      }
    }
  }

  lemma {:induction false} AtMostCovers(samples: seq<nat>, b: nat, w: nat)
    requires forall x :: x in samples && BucketFor(x) <= b ==> x <= w
    ensures CountUpTo(samples, b) <= AtMost(samples, w)
  {
    if samples != [] {
      AtMostCovers(samples[..|samples| - 1], b, w);
      assert samples[|samples| - 1] in samples;
    }
  }

  lemma {:induction false} LargestInBuckets(samples: seq<nat>, b: nat) returns (w: nat)
    requires CountUpTo(samples, b) > 0
    ensures w in samples && BucketFor(w) <= b
    ensures forall x :: x in samples && BucketFor(x) <= b ==> x <= w
  {
    var before, last := samples[..|samples| - 1], samples[|samples| - 1];
    assert forall x :: x in samples ==> x in before || x == last;
    if CountUpTo(before, b) > 0 {
      w := LargestInBuckets(before, b);
      if BucketFor(last) <= b && last > w {
        w := last;
      }
    } else {
      w := last;
      NothingInBuckets(before, b);
    }
  }

  lemma {:induction false} NothingInBuckets(samples: seq<nat>, b: nat)
    requires CountUpTo(samples, b) == 0
    ensures forall x :: x in samples ==> BucketFor(x) > b
  {
    if samples != [] {
      var before, last := samples[..|samples| - 1], samples[|samples| - 1];
      NothingInBuckets(before, b);
      assert forall x :: x in samples ==> x in before || x == last;
    }
  }

  /** The cumulative count reaches `t` at the bucket of the least sample that has `t` at or below it. */
  lemma BucketOfLeast(samples: seq<nat>, t: nat, v: nat, b: nat)
    requires t >= 1 && IsLeastReaching(samples, t, v)
    ensures CountUpTo(samples, b) >= t <==> BucketFor(v) <= b
  {
    if BucketFor(v) <= b {
      AtMostIsCovered(samples, v);
      CountUpToMonotone(samples, BucketFor(v), b);
    } else if CountUpTo(samples, b) > 0 {
      var w := LargestInBuckets(samples, b);
      AtMostCovers(samples, b, w);
      if v <= w {
        BucketMonotone(v, w);
      }
    }
  }

  lemma {:induction false} CountUpToMonotone(samples: seq<nat>, b: nat, c: nat)
    requires b <= c
    ensures CountUpTo(samples, b) <= CountUpTo(samples, c)
  {
    if samples != [] {
      CountUpToMonotone(samples[..|samples| - 1], b, c);
    }
  }

  /** A percentile reports the bucket of the least sample with the share p at or below it. */
  lemma PercentileIsQuantile(samples: seq<nat>, p: real, v: nat)
    requires 0.0 < p <= 1.0 && IsQuantile(samples, p, v)
    ensures Percentile(samples, p) == Representative(v)
  {
    var t := Target(|samples|, p);
    TargetIs(|samples|, p);
    QuantileIsLeast(samples, p, v);
    forall b: nat | b < NUM_BUCKETS ensures CountUpTo(samples, b) >= t <==> BucketFor(v) <= b {
      BucketOfLeast(samples, t, v, b);
    }
    FirstBucketIsLeast(samples, t, 0, BucketFor(v));
  }

  /** The share 0 is reached before the first sample: the first bucket is reported. */
  lemma PercentileOfNothing(samples: seq<nat>)
    ensures Percentile(samples, 0.0) == 0
  {
    TargetIs(|samples|, 0.0);
  }

  /** `t` is the share p of `count`, rounded up. */
  predicate IsRank(count: nat, p: real, t: nat) {
    count as real * p <= t as real < count as real * p + 1.0
  }

  /**
   * `percentile` reports the bucket representative of the sample that has the rank of its share in
   * the sorted list, whatever the order of recording was.
   */
  lemma PercentileIsRankStatistic(samples: seq<nat>, sorted: seq<nat>, p: real, t: nat)
    requires 0.0 <= p <= 1.0 && IsRank(|samples|, p, t) && t >= 1
    requires IsSorted(sorted) && multiset(sorted) == multiset(samples)
    ensures |sorted| == |samples| && t <= |sorted|
    ensures Percentile(samples, p) == Representative(sorted[t - 1])
  {
    assert |multiset(sorted)| == |sorted| && |multiset(samples)| == |samples|;
    TargetIs(|samples|, p);
    RankIsUnique(|samples| as real * p, t, Target(|samples|, p));
    var r := BucketFor(sorted[t - 1]);
    forall i: nat | i < NUM_BUCKETS ensures CountUpTo(samples, i) >= t <==> r <= i {
      CountUpToPermutation(samples, sorted, i);
      RankReached(sorted, t, i);
    }
    FirstBucketIsLeast(samples, t, 0, r);
  }

  /** The report is at most the sample it stands for and, up to 2^20 ns, within a factor of four. */
  lemma PercentileBounds(samples: seq<nat>, p: real, v: nat)
    requires 0.0 < p <= 1.0 && IsQuantile(samples, p, v)
    ensures var r := Percentile(samples, p);
            r <= v && (2 <= v < 0x10_0000 ==> v < 4 * r)
  {
    PercentileIsQuantile(samples, p, v);
    RepresentativeBounds(v);
  }

  lemma PercentileMeans(samples: seq<nat>, p: real)
    requires 0.0 <= p <= 1.0
    ensures samples == [] || p == 0.0 ==> Percentile(samples, p) == 0
    ensures p > 0.0 ==> forall v :: IsQuantile(samples, p, v) ==> Percentile(samples, p) == Representative(v)
  {
    PercentileOfNothing(samples);
    forall v | p > 0.0 && IsQuantile(samples, p, v) ensures Percentile(samples, p) == Representative(v) {
      PercentileIsQuantile(samples, p, v);
    }
  }

  lemma {:induction false} AtMostAll(samples: seq<nat>, v: nat)
    requires forall x :: x in samples ==> x <= v
    ensures AtMost(samples, v) == |samples|
  {
    if samples != [] {
      var before := samples[..|samples| - 1];
      assert forall x :: x in before ==> x in samples;
      assert samples[|samples| - 1] in samples;
      AtMostAll(before, v);
    }
  }

  lemma {:induction false} LeastBelow(samples: seq<nat>, t: nat, u: nat) returns (v: nat)
    requires u in samples && AtMost(samples, u) >= t
    ensures IsLeastReaching(samples, t, v)
    decreases u
  {
    if w :| w in samples && w < u && AtMost(samples, w) >= t {
      v := LeastBelow(samples, t, w);
    } else {
      v := u;
    }
  }

  /** There is such a sample, for every share and every nonempty list. */
  lemma QuantileExists(samples: seq<nat>, p: real) returns (v: nat)
    requires 0.0 <= p <= 1.0 && samples != []
    ensures IsQuantile(samples, p, v)
  {
    CountUpToAll(samples, NUM_BUCKETS);
    var top := LargestInBuckets(samples, NUM_BUCKETS);
    assert forall x :: x in samples ==> BucketFor(x) <= NUM_BUCKETS;
    AtMostAll(samples, top);
    v := LeastBelow(samples, Target(|samples|, p), top);
    QuantileIsLeast(samples, p, v);
  }

  lemma TargetMonotone(count: nat, p: real, q: real)
    requires 0.0 <= p <= q <= 1.0
    ensures Target(count, p) <= Target(count, q)
  {
    var c := count as real;
    assert c * (q - p) >= 0.0;
    assert c * p <= c * q;
  }

  lemma {:induction false} FirstBucketMonotone(samples: seq<nat>, t: nat, u: nat, b: nat)
    requires t <= u && b < NUM_BUCKETS
    ensures FirstBucket(samples, t, b) <= FirstBucket(samples, u, b)
    decreases NUM_BUCKETS - b
  {
    if b < NUM_BUCKETS - 1 && CountUpTo(samples, b) < t {
      FirstBucketMonotone(samples, t, u, b + 1);
    }
  }

  /** A higher percentile is never reported lower. */
  lemma PercentileMonotone(samples: seq<nat>, p: real, q: real)
    requires 0.0 <= p <= q <= 1.0
    ensures Percentile(samples, p) <= Percentile(samples, q)
  {
    var t, u := Target(|samples|, p), Target(|samples|, q);
    TargetMonotone(|samples|, p, q);
    FirstBucketMonotone(samples, t, u, 0);
    RepresentativeMonotone(FirstBucket(samples, t, 0), FirstBucket(samples, u, 0));
  }

  lemma {:induction false} MaxOfBounds(samples: seq<nat>)
    ensures forall i :: 0 <= i < |samples| ==> samples[i] <= MaxOf(samples)
  {
    if samples != [] {
      MaxOfBounds(samples[..|samples| - 1]);
    }
  }

  lemma {:induction false} MinOfBounds(samples: seq<nat>)
    ensures forall i :: 0 <= i < |samples| ==> MinOf(samples) <= samples[i]
  {
    if samples != [] {
      MinOfBounds(samples[..|samples| - 1]);
    }
  }

  lemma {:induction false} FirstBucketStops(samples: seq<nat>, target: nat, c: nat, b: nat)
    requires c <= b < NUM_BUCKETS && CountUpTo(samples, b) >= target
    ensures FirstBucket(samples, target, c) <= b
    decreases NUM_BUCKETS - c
  {
    if c < b && CountUpTo(samples, c) < target {
      FirstBucketStops(samples, target, c + 1, b);
    }
  }

  /** No percentile, not even of a rank 0, is reported above the recorded maximum. */
  lemma PercentileWithinMax(samples: seq<nat>, p: real)
    requires 0.0 <= p <= 1.0
    ensures Percentile(samples, p) <= MaxOf(samples)
  {
    if samples != [] {
      var top := MaxOf(samples);
      MaxOfBounds(samples);
      forall i | 0 <= i < |samples| ensures BucketFor(samples[i]) <= BucketFor(top) {
        BucketMonotone(samples[i], top);
      }
      CountUpToAll(samples, BucketFor(top));
      FirstBucketStops(samples, Target(|samples|, p), 0, BucketFor(top));
      RepresentativeMonotone(FirstBucket(samples, Target(|samples|, p), 0), BucketFor(top));
      RepresentativeBounds(top);
    }
  }
}
