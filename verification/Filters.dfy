/** The windowed filters: running-sum average and insertion-sort median. */
module Filters {
  import opened Wrappers
  import opened Sums
  import opened Bits
  import opened RealFacts

  /** The last `size` samples, or all of them when there are fewer. */
  function Window(samples: seq<real>, size: nat): (w: seq<real>)
    ensures |w| == if |samples| < size then |samples| else size
  {
    if |samples| < size then samples else samples[|samples| - size..]
  }

  function Quotient(x: real, n: nat): real
    requires n > 0
  {
    x / n as real
  }

  function Mean(xs: seq<real>): real
    requires xs != []
  {
    Quotient(TotalReal(xs), |xs|)
  }

  /** The mean is the number that stands for each of the elements without changing their sum. */
  lemma MeanIs(xs: seq<real>)
    requires xs != []
    ensures Mean(xs) * |xs| as real == TotalReal(xs)
  {
    DivMul(TotalReal(xs), |xs| as real);
  }

  predicate IsSorted(xs: seq<real>) {
    forall i, j :: 0 <= i <= j < |xs| ==> xs[i] <= xs[j]
  }

  // ---------- The circular window ----------

  datatype Ring = Ring(buffer: seq<real>, index: nat, count: nat)

  function Put(ring: Ring, x: real): Ring
    requires ring.index < |ring.buffer|
  {
    Ring(ring.buffer[ring.index := x],
         (ring.index + 1) % |ring.buffer|,
         if ring.count < |ring.buffer| then ring.count + 1 else ring.count)
  }

  /** Sample number `k` of the window sits in the slot that its number gives it. */
  ghost predicate HoldsWindow(ring: Ring, samples: seq<real>) {
    var size, n := |ring.buffer|, |samples|;
    && size > 0
    && ring.index == SlotOf(n, size) < size
    && ring.count == |Window(samples, size)|
    && forall k: nat :: n - ring.count <= k < n ==> ring.buffer[SlotOf(k, size)] == samples[k]
  }

  lemma PutKeepsWindow(ring: Ring, samples: seq<real>, x: real)
    requires HoldsWindow(ring, samples)
    ensures HoldsWindow(Put(ring, x), samples + [x])
  {
    var size, n, after := |ring.buffer|, |samples|, Put(ring, x);
    ModSucc(n, size);
    forall k: nat | n + 1 - after.count <= k < n + 1
      ensures after.buffer[SlotOf(k, size)] == (samples + [x])[k]
    {
      if k < n && SlotOf(k, size) == SlotOf(n, size) {
        ModInjective(k, n, size);
      }
    }
  }

  /** A full window starts at the slot that is overwritten next. */
  lemma OldestInWindow(ring: Ring, samples: seq<real>)
    requires HoldsWindow(ring, samples) && ring.count == |ring.buffer|
    ensures ring.buffer[ring.index] == Window(samples, |ring.buffer|)[0]
  {
    ModAddLap(|samples| - |ring.buffer|, |ring.buffer|);
    assert ring.buffer[SlotOf(|samples| - |ring.buffer|, |ring.buffer|)] == samples[|samples| - |ring.buffer|];
  }

  lemma WindowSlides(samples: seq<real>, size: nat, x: real)
    requires size > 0
    ensures Window(samples + [x], size)
            == if |samples| < size then Window(samples, size) + [x] else Window(samples, size)[1..] + [x]
  {
    if |samples| + 1 == size {
      assert (samples + [x])[0..] == samples + [x];
    }
  }

  lemma SlotBelowIndex(n: nat, size: nat, j: nat)
    requires size > 0
    requires j < SlotOf(n, size)
    ensures n >= SlotOf(n, size) && SlotOf(n - SlotOf(n, size) + j, size) == j
  {
    ModUnique(n - n % size + j, size, n / size, j);
  }

  lemma SlotFromIndex(n: nat, size: nat, j: nat)
    requires 0 < size <= n
    requires SlotOf(n, size) <= j < size
    ensures n - size - SlotOf(n, size) + j >= 0 && SlotOf(n - size - SlotOf(n, size) + j, size) == j
  {
    ModUnique(n - size - n % size + j, size, n / size - 1, j);
  }

  lemma FillingBuffer(ring: Ring, samples: seq<real>)
    requires HoldsWindow(ring, samples) && |samples| < |ring.buffer|
    ensures ring.count == |samples| && ring.buffer[..ring.count] == samples
  {
    forall j: nat | j < |samples| ensures ring.buffer[j] == samples[j] {
      ModUnique(j, |ring.buffer|, 0, j);
      assert ring.buffer[SlotOf(j, |ring.buffer|)] == samples[j];
    }
  }

  lemma SampleInSlot(ring: Ring, samples: seq<real>, k: nat, j: nat)
    requires HoldsWindow(ring, samples) && |samples| - |ring.buffer| <= k < |samples|
    requires j < |ring.buffer| && SlotOf(k, |ring.buffer|) == j
    ensures ring.buffer[j] == samples[k]
  {
  }

  /** In a full buffer, what is in front of the index are the newest samples. */
  lemma NewerSamples(ring: Ring, samples: seq<real>, j: nat)
    requires HoldsWindow(ring, samples) && |samples| >= |ring.buffer| && j < ring.index
    ensures 0 <= |samples| - ring.index + j < |samples|
    ensures ring.buffer[j] == samples[|samples| - ring.index + j]
  {
    SlotBelowIndex(|samples|, |ring.buffer|, j);
    SampleInSlot(ring, samples, |samples| - ring.index + j, j);
  }

  lemma OlderSamples(ring: Ring, samples: seq<real>, j: nat)
    requires HoldsWindow(ring, samples) && |samples| >= |ring.buffer| && ring.index <= j < |ring.buffer|
    ensures ring.buffer[j] == samples[|samples| - |ring.buffer| - ring.index + j]
  {
    SlotFromIndex(|samples|, |ring.buffer|, j);
    SampleInSlot(ring, samples, |samples| - |ring.buffer| - ring.index + j, j);
  }

  /** The last samples, but with those from number `i` on moved to the front. */
  ghost predicate IsRotated(buffer: seq<real>, samples: seq<real>, i: nat) {
    && i <= |buffer| <= |samples|
    && (forall j :: 0 <= j < i ==> buffer[j] == samples[|samples| - i + j])
    && (forall j :: i <= j < |buffer| ==> buffer[j] == samples[|samples| - |buffer| - i + j])
  }

  lemma FullBuffer(ring: Ring, samples: seq<real>)
    requires HoldsWindow(ring, samples) && |samples| >= |ring.buffer|
    ensures ring.count == |ring.buffer| && IsRotated(ring.buffer, samples, ring.index)
  {
    forall j | 0 <= j < ring.index ensures ring.buffer[j] == samples[|samples| - ring.index + j] {
      NewerSamples(ring, samples, j);
    }
    forall j | ring.index <= j < |ring.buffer|
      ensures ring.buffer[j] == samples[|samples| - |ring.buffer| - ring.index + j]
    {
      OlderSamples(ring, samples, j);
    }
  }

  lemma RotationPermutes(buffer: seq<real>, samples: seq<real>, i: nat)
    requires IsRotated(buffer, samples, i)
    ensures multiset(buffer[..|buffer|]) == multiset(Window(samples, |buffer|))
  {
    assert buffer[..|buffer|] == buffer;
    var w := samples[|samples| - |buffer|..];
    assert buffer[..i] == w[|w| - i..] && buffer[i..] == w[..|w| - i];
    assert buffer == buffer[..i] + buffer[i..] && w == w[..|w| - i] + w[|w| - i..];
  }

  lemma FewerThanSlots(ring: Ring, samples: seq<real>)
    requires HoldsWindow(ring, samples)
    ensures ring.count <= |ring.buffer|
    ensures |samples| < |ring.buffer| ==> Window(samples, |ring.buffer|) == samples
  {
  }

  /** The used part of the buffer is the window, rotated. */
  lemma BufferPermutesWindow(ring: Ring, samples: seq<real>)
    requires HoldsWindow(ring, samples)
    ensures ring.count <= |ring.buffer|
    ensures multiset(ring.buffer[..ring.count]) == multiset(Window(samples, |ring.buffer|))
  {
    FewerThanSlots(ring, samples);
    if |samples| < |ring.buffer| {
      FillingBuffer(ring, samples);
    } else {
      FullBuffer(ring, samples);
      RotationPermutes(ring.buffer, samples, ring.index);
    }
  }

  // ---------- Sums ----------

  lemma {:induction false} RealConcat(xs: seq<real>, ys: seq<real>)
    ensures TotalReal(xs + ys) == TotalReal(xs) + TotalReal(ys)
  {
    if ys == [] {
      assert xs + ys == xs;
    } else {
      RealConcat(xs, ys[..|ys| - 1]);
      assert (xs + ys)[..|xs + ys| - 1] == xs + ys[..|ys| - 1];
    }
  }

  lemma RealOne(x: real)
    ensures TotalReal([x]) == x
  {
    assert [x][..0] == [];
  }

  /** Sliding the window adds the new sample and, when it was full, subtracts the oldest. */
  lemma SlidingTotal(samples: seq<real>, size: nat, x: real)
    requires size > 0
    ensures TotalReal(Window(samples + [x], size))
            == TotalReal(Window(samples, size)) + x - if |samples| < size then 0.0 else Window(samples, size)[0]
  {
    WindowSlides(samples, size, x);
    var w := Window(samples, size);
    RealOne(x);
    if |samples| < size {
      RealConcat(w, [x]);
    } else {
      RealConcat(w[1..], [x]);
      RealConcat([w[0]], w[1..]);
      RealOne(w[0]);
      assert w == [w[0]] + w[1..];
    }
  }

  // ---------- Sorted permutations ----------

  lemma LastIsMaximum(s: seq<real>, t: seq<real>)
    requires IsSorted(s) && multiset(s) == multiset(t) && |s| == |t| > 0
    ensures t[|t| - 1] <= s[|s| - 1]
  {
    assert t[|t| - 1] in multiset(s);
    var i :| 0 <= i < |s| && s[i] == t[|t| - 1];
  }

  lemma InitMultiset(s: seq<real>)
    requires s != []
    ensures multiset(s[..|s| - 1]) == multiset(s) - multiset{s[|s| - 1]}
  {
    assert s == s[..|s| - 1] + [s[|s| - 1]];
  }

  /** The sorted permutation is unique, so the median depends on the window alone. */
  lemma {:induction false} SortedIsUnique(s: seq<real>, t: seq<real>)
    requires IsSorted(s) && IsSorted(t) && multiset(s) == multiset(t)
    ensures s == t
  {
    assert |multiset(s)| == |s| && |multiset(t)| == |t|;
    if s != [] {
      LastIsMaximum(s, t);
      LastIsMaximum(t, s);
      InitMultiset(s);
      InitMultiset(t);
      SortedIsUnique(s[..|s| - 1], t[..|t| - 1]);
      assert s == s[..|s| - 1] + [s[|s| - 1]] && t == t[..|t| - 1] + [t[|t| - 1]];
    }
  }

  predicate SortedUpTo(s: seq<real>, i: nat) {
    i <= |s| && forall a, b :: 0 <= a <= b < i ==> s[a] <= s[b]
  }

  /** The first `i + 1` elements are sorted but for the hole at `j`, above which all exceed the key. */
  ghost predicate SortedAround(s: seq<real>, i: nat, j: nat, key: real) {
    && j <= i < |s|
    && (forall a, b :: 0 <= a <= b <= i && a != j && b != j ==> s[a] <= s[b])
    && (forall b :: j < b <= i ==> key < s[b])
  }

  /** Larger elements move up one place each until the key fits. */
  function Sink(s: seq<real>, j: nat, key: real): (r: seq<real>)
    requires j < |s|
    ensures |r| == |s|
    decreases j
  {
    if j > 0 && s[j - 1] > key then Sink(s[j := s[j - 1]], j - 1, key) else s[j := key]
  }

  /** The insertion sort from element `i` on. */
  function SortFrom(s: seq<real>, i: nat): (r: seq<real>)
    ensures |r| == |s|
    decreases |s| - i
  {
    if i >= |s| then s else SortFrom(Sink(s, i, s[i]), i + 1)
  }

  /** Moving an element one place up moves the hole that the key will fill one place down. */
  lemma ShiftKeepsMultiset(s: seq<real>, j: nat, key: real)
    requires 0 < j < |s|
    ensures multiset(s[j := s[j - 1]][j - 1 := key]) == multiset(s[j := key])
  {
    var a, b := s[j := key], s[j := s[j - 1]][j - 1 := key];
    assert a == s[..j - 1] + [s[j - 1], key] + s[j + 1..];
    assert b == s[..j - 1] + [key, s[j - 1]] + s[j + 1..];
    assert multiset([s[j - 1], key]) == multiset([key, s[j - 1]]);
  }

  lemma {:induction false} SinkPermutes(s: seq<real>, j: nat, key: real)
    requires j < |s|
    ensures multiset(Sink(s, j, key)) == multiset(s[j := key])
    decreases j
  {
    if j > 0 && s[j - 1] > key {
      ShiftKeepsMultiset(s, j, key);
      SinkPermutes(s[j := s[j - 1]], j - 1, key);
    }
  }

  lemma {:induction false} SinkSorts(s: seq<real>, i: nat, j: nat, key: real)
    requires SortedAround(s, i, j, key)
    ensures SortedUpTo(Sink(s, j, key), i + 1)
    decreases j
  {
    if j > 0 && s[j - 1] > key {
      SinkSorts(s[j := s[j - 1]], i, j - 1, key);
    }
  }

  /** The insertion sort yields a sorted permutation. */
  lemma {:induction false} SortFromSorts(s: seq<real>, i: nat)
    requires SortedUpTo(s, i)
    ensures IsSorted(SortFrom(s, i)) && multiset(SortFrom(s, i)) == multiset(s)
    decreases |s| - i
  {
    if i < |s| {
      SinkPermutes(s, i, s[i]);
      assert s[i := s[i]] == s;
      SinkSorts(s, i, i, s[i]);
      SortFromSorts(Sink(s, i, s[i]), i + 1);
    }
  }

  /** `r` has the middle rank in `sorted`, which is the window in ascending order. */
  ghost predicate IsMedianOf(r: real, sorted: seq<real>, window: seq<real>) {
    && window != []
    && IsSorted(sorted) && multiset(sorted) == multiset(window)
    && |sorted| == |window| && r == sorted[|window| / 2]
  }

  /** A window has one median. */
  lemma MedianIsUnique(r: real, r': real, s: seq<real>, s': seq<real>, window: seq<real>)
    requires IsMedianOf(r, s, window) && IsMedianOf(r', s', window)
    ensures r == r'
  {
    SortedIsUnique(s, s');
  }

  /** Sorting the used part of the buffer puts the median in the middle. */
  lemma MiddleIsMedian(ring: Ring, samples: seq<real>)
    requires HoldsWindow(ring, samples) && ring.count > 0
    ensures ring.count <= |ring.buffer|
    ensures var s := SortFrom(ring.buffer[..ring.count], 1);
            IsMedianOf(s[ring.count / 2], s, Window(samples, |ring.buffer|))
  {
    BufferPermutesWindow(ring, samples);
    SortFromSorts(ring.buffer[..ring.count], 1);
  }

  // ---------- One sample of the average, on values ----------

  datatype Average = Average(ring: Ring, sum: real)

  function AverageStep(a: Average, x: real): Average
    requires a.ring.index < |a.ring.buffer|
  {
    var full := a.ring.count >= |a.ring.buffer|;
    Average(Put(a.ring, x), (if full then a.sum - a.ring.buffer[a.ring.index] else a.sum) + x)
  }

  /** The running sum is the sum of the window. */
  ghost predicate Averages(a: Average, samples: seq<real>) {
    HoldsWindow(a.ring, samples) && a.sum == TotalReal(Window(samples, |a.ring.buffer|))
  }

  lemma AverageStepKeeps(a: Average, samples: seq<real>, x: real)
    requires Averages(a, samples)
    ensures Averages(AverageStep(a, x), samples + [x])
    ensures AverageStep(a, x).ring.count == |Window(samples + [x], |a.ring.buffer|)| > 0
  {
    SlidingTotal(samples, |a.ring.buffer|, x);
    PutKeepsWindow(a.ring, samples, x);
    if a.ring.count == |a.ring.buffer| {
      OldestInWindow(a.ring, samples);
    }
  }

  // ---------- The classes ----------

  class MovingAverage {
    var buffer: array<real>
    var sum: real
    var index: nat
    var count: nat

    /** Everything processed since creation or the last reset. */
    ghost var samples: seq<real>

    ghost function View(): Average
      reads this, buffer
    {
      Average(Ring(buffer[..], index, count), sum)
    }

    ghost predicate Valid()
      reads this, buffer
    {
      Averages(View(), samples)
    }

    constructor (window: nat)
      requires window > 0
      ensures Valid() && fresh(buffer) && buffer.Length == window && samples == []
    {
      buffer := new real[window](_ => 0.0);
      sum, index, count := 0.0, 0, 0;
      samples := [];
    }

    method Process(input: real) returns (r: real)
      requires Valid()
      modifies this, buffer
      ensures Valid() && buffer == old(buffer) && samples == old(samples) + [input]
      ensures var w := Window(samples, buffer.Length);
              w != [] && r == Mean(w)
    {
      AverageStepKeeps(View(), samples, input);
      Replace(input);
      samples := samples + [input];
      r := Quotient(sum, count);
    }

    /** Everything in `Process` but the final division. */
    method Replace(input: real)
      requires index < buffer.Length
      modifies this, buffer
      ensures buffer == old(buffer) && samples == old(samples)
      ensures View() == AverageStep(old(View()), input)
    {
      if count >= buffer.Length {
        sum := sum - buffer[index];
      } else {
        count := count + 1;
      }
      buffer[index] := input;
      sum := sum + input;
      index := (index + 1) % buffer.Length;
    }

    method Current() returns (r: Option<real>)
      requires Valid()
      ensures var w := Window(samples, buffer.Length);
              r == if w == [] then None else Some(Mean(w))
    {
      r := if count == 0 then None else Some(Quotient(sum, count));
    }

    method Reset()
      requires Valid()
      modifies this, buffer
      ensures Valid() && buffer == old(buffer) && samples == []
    {
      forall i | 0 <= i < buffer.Length {
        buffer[i] := 0.0;
      }
      sum, index, count := 0.0, 0, 0;
      samples := [];
    }
  }

  class MedianFilter {
    const buffer: array<real>
    const sorted: array<real>
    var index: nat
    var count: nat

    ghost var samples: seq<real>

    ghost function View(): Ring
      reads this, buffer
    {
      Ring(buffer[..], index, count)
    }

    ghost predicate Valid()
      reads this, buffer
    {
      && HoldsWindow(View(), samples)
      && sorted.Length == buffer.Length
      && sorted != buffer
    }

    constructor (window: nat)
      requires window > 0
      ensures Valid() && fresh(buffer) && fresh(sorted) && buffer.Length == window && samples == []
    {
      buffer := new real[window](_ => 0.0);
      sorted := new real[window](_ => 0.0);
      index, count := 0, 0;
      samples := [];
    }

    method CopyWindow(len: nat)
      requires len <= sorted.Length == buffer.Length && sorted != buffer
      modifies sorted
      ensures sorted[..len] == buffer[..len]
    {
      forall i | 0 <= i < len {
        sorted[i] := buffer[i];
      }
    }

    /** The in-place insertion sort of the first `len` elements. */
    method SortWindow(len: nat)
      requires 0 < len <= sorted.Length
      modifies sorted
      ensures sorted[..len] == SortFrom(old(sorted[..len]), 1)
    {
      for i := 1 to len
        invariant SortFrom(sorted[..len], i) == SortFrom(old(sorted[..len]), 1)
      {
        var key := sorted[i];
        var j := i;
        ghost var s := sorted[..len];
        while j > 0 && sorted[j - 1] > key
          invariant j <= i && Sink(sorted[..len], j, key) == Sink(s, i, key)
        {
          ghost var t := sorted[..len];
          sorted[j] := sorted[j - 1];
          assert sorted[..len] == t[j := t[j - 1]];
          j := j - 1;
        }
        ghost var t := sorted[..len];
        sorted[j] := key;
        assert sorted[..len] == t[j := key];
      }
    }

    /** The element of middle rank in the sorted window. */
    method ComputeMedian() returns (r: real)
      requires 0 < count <= buffer.Length == sorted.Length && sorted != buffer
      modifies sorted
      ensures sorted[..count] == SortFrom(buffer[..count], 1)
      ensures r == sorted[count / 2]
    {
      var len := count;
      CopyWindow(len);
      SortWindow(len);
      r := sorted[len / 2];
    }

    method Process(input: real) returns (r: real)
      requires Valid()
      modifies this, buffer, sorted
      ensures Valid() && samples == old(samples) + [input]
      ensures count <= sorted.Length && IsMedianOf(r, sorted[..count], Window(samples, buffer.Length))
    {
      PutKeepsWindow(View(), samples, input);
      Insert(input);
      samples := samples + [input];
      MiddleIsMedian(View(), samples);
      assert buffer[..][..count] == buffer[..count];
      r := ComputeMedian();
    }

    method Insert(input: real)
      requires index < buffer.Length
      modifies this, buffer
      ensures samples == old(samples) && View() == Put(old(View()), input)
    {
      buffer[index] := input;
      index := (index + 1) % buffer.Length;
      if count < buffer.Length {
        count := count + 1;
      }
    }

    method Reset()
      requires Valid()
      modifies this, buffer
      ensures Valid() && samples == []
    {
      forall i | 0 <= i < buffer.Length {
        buffer[i] := 0.0;
      }
      index, count := 0, 0;
      samples := [];
    }
  }
}
