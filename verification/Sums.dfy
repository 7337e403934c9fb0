/** Sums over sequences. */
module Sums {
  function Total(xs: seq<nat>): nat {
    if xs == [] then 0 else Total(xs[..|xs| - 1]) + xs[|xs| - 1]
  }

  lemma {:induction false} TotalUpdate(xs: seq<nat>, i: nat, x: nat)
    requires i < |xs|
    ensures Total(xs[i := x]) == Total(xs) - xs[i] + x
  {
    var init := xs[..|xs| - 1];
    if i == |xs| - 1 {
      assert xs[i := x][..|xs| - 1] == init;
    } else {
      TotalUpdate(init, i, x);
      assert xs[i := x][..|xs| - 1] == init[i := x];
    }
  }

  lemma {:induction false} TotalConcat(xs: seq<nat>, ys: seq<nat>)
    ensures Total(xs + ys) == Total(xs) + Total(ys)
  {
    if ys == [] {
      assert xs + ys == xs;
    } else {
      TotalConcat(xs, ys[..|ys| - 1]);
      assert (xs + ys)[..|xs + ys| - 1] == xs + ys[..|ys| - 1];
    }
  }

  lemma {:induction false} TotalZero(xs: seq<nat>)
    requires forall i :: 0 <= i < |xs| ==> xs[i] == 0
    ensures Total(xs) == 0
  {
    if xs != [] {
      TotalZero(xs[..|xs| - 1]);
    }
  }

  function TotalReal(xs: seq<real>): real {
    if xs == [] then 0.0 else TotalReal(xs[..|xs| - 1]) + xs[|xs| - 1]
  }

  /** The total weight of the elements. */
  ghost function Tally<T>(weight: T -> nat, xs: seq<T>): nat {
    if xs == [] then 0 else Tally(weight, xs[..|xs| - 1]) + weight(xs[|xs| - 1])
  }

  lemma {:induction false} TallyUpdate<T>(weight: T -> nat, xs: seq<T>, i: nat, x: T)
    requires i < |xs|
    ensures Tally(weight, xs[i := x]) == Tally(weight, xs) - weight(xs[i]) + weight(x)
  {
    var init := xs[..|xs| - 1];
    if i == |xs| - 1 {
      assert xs[i := x][..|xs| - 1] == init;
    } else {
      TallyUpdate(weight, init, i, x);
      assert xs[i := x][..|xs| - 1] == init[i := x];
    }
  }
}
