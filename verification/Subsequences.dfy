/** Order-preserving subsequences: what a sequence may turn into when elements are dropped. */
module Subsequences {
  import opened Wrappers
  import opened Stages

  ghost predicate IsSubseq<T>(a: seq<T>, b: seq<T>)
    decreases |b|
  {
    a == [] ||
    (b != [] &&
     (IsSubseq(a, b[..|b| - 1]) ||
      (a[|a| - 1] == b[|b| - 1] && IsSubseq(a[..|a| - 1], b[..|b| - 1]))))
  }

  lemma KeepLast<T>(a: seq<T>, b: seq<T>, x: T)
    requires IsSubseq(a, b)
    ensures IsSubseq(a + [x], b + [x])
  {
    assert (a + [x])[..|a|] == a && (b + [x])[..|b|] == b;
  }

  lemma DropLast<T>(a: seq<T>, b: seq<T>, x: T)
    requires IsSubseq(a, b)
    ensures IsSubseq(a, b + [x])
  {
    assert (b + [x])[..|b|] == b;
  }

  lemma {:induction false} WithoutLast<T>(a: seq<T>, b: seq<T>)
    requires a != [] && IsSubseq(a, b)
    ensures IsSubseq(a[..|a| - 1], b)
    decreases |b|
  {
    if IsSubseq(a, b[..|b| - 1]) {
      WithoutLast(a, b[..|b| - 1]);
      DropLast(a[..|a| - 1], b[..|b| - 1], b[|b| - 1]);
    } else {
      DropLast(a[..|a| - 1], b[..|b| - 1], b[|b| - 1]);
    }
    assert b[..|b| - 1] + [b[|b| - 1]] == b;
  }

  lemma {:induction false} PrefixIsSubseq<T>(a: seq<T>, b: seq<T>)
    requires a <= b
    ensures IsSubseq(a, b)
    decreases |b|
  {
    if a == [] {
    } else if |a| == |b| {
      PrefixIsSubseq(a[..|a| - 1], b[..|b| - 1]);
    } else {
      PrefixIsSubseq(a, b[..|b| - 1]);
    }
  }

  lemma {:induction false} SubseqTransitive<T>(a: seq<T>, b: seq<T>, c: seq<T>)
    requires IsSubseq(a, b) && IsSubseq(b, c)
    ensures IsSubseq(a, c)
    decreases |b| + |c|
  {
    if a != [] {
      var b', c' := b[..|b| - 1], c[..|c| - 1];
      if IsSubseq(b, c') {
        SubseqTransitive(a, b, c');
      } else if IsSubseq(a, b') {
        SubseqTransitive(a, b', c');
      } else {
        SubseqTransitive(a[..|a| - 1], b', c');
      }
    }
  }

  lemma {:induction false} CollectKeepsSubseq<I, O>(f: I -> Option<O>, a: seq<I>, b: seq<I>)
    requires IsSubseq(a, b)
    ensures IsSubseq(Collect(f, a), Collect(f, b))
    decreases |b|
  {
    if a != [] {
      var b', x := b[..|b| - 1], b[|b| - 1];
      if IsSubseq(a, b') {
        CollectKeepsSubseq(f, a, b');
        if f(x).Some? {
          DropLast(Collect(f, a), Collect(f, b'), f(x).value);
        }
      } else {
        CollectKeepsSubseq(f, a[..|a| - 1], b');
        if f(x).Some? {
          KeepLast(Collect(f, a[..|a| - 1]), Collect(f, b'), f(x).value);
        }
      }
    }
  }

  /** A subsequence is what remains at increasing positions. */
  lemma {:induction false} SubseqPositions<T>(a: seq<T>, b: seq<T>) returns (at: seq<nat>)
    requires IsSubseq(a, b)
    ensures |at| == |a|
    ensures forall i :: 0 <= i < |a| ==> at[i] < |b| && b[at[i]] == a[i]
    ensures forall i, j :: 0 <= i < j < |a| ==> at[i] < at[j]
    decreases |b|
  {
    if a == [] {
      at := [];
    } else if IsSubseq(a, b[..|b| - 1]) {
      at := SubseqPositions(a, b[..|b| - 1]);
    } else {
      at := SubseqPositions(a[..|a| - 1], b[..|b| - 1]);
      at := at + [|b| - 1];
    }
  }

  /** Filtering keeps exactly the inputs that match, with their multiplicity and in their order. */
  lemma {:induction false} FilterRuns<T>(p: T -> bool, inputs: seq<T>, v: T)
    ensures var outputs := Run(Filter(p), (), inputs).1;
            && IsSubseq(outputs, inputs)
            && multiset(outputs)[v] == if p(v) then multiset(inputs)[v] else 0
  {
    if inputs != [] {
      var before, x := inputs[..|inputs| - 1], inputs[|inputs| - 1];
      FilterRuns(p, before, v);
      assert inputs == before + [x];
      if p(x) {
        KeepLast(Run(Filter(p), (), before).1, before, x);
      } else {
        DropLast(Run(Filter(p), (), before).1, before, x);
      }
    }
  }
}
