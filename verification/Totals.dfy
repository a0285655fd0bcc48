/**
 Sums of a weight over a sequence: how many elements have a property, how much work is left.
 */
module Totals {

  function Total<T>(xs: seq<T>, f: T -> nat): nat {
    if xs == [] then 0 else Total(xs[..|xs| - 1], f) + f(xs[|xs| - 1])
  }

  lemma {:induction false} TotalUpdate<T>(xs: seq<T>, k: nat, x: T, f: T -> nat)
    requires k < |xs|
    ensures Total(xs[k := x], f) + f(xs[k]) == Total(xs, f) + f(x)
    decreases |xs|
  {
    var n := |xs| - 1;
    var ys := xs[k := x];
    if k == n {
      assert ys[..n] == xs[..n];
    } else {
      TotalUpdate(xs[..n], k, x, f);
      assert ys[..n] == xs[..n][k := x];
    }
  }

  lemma {:induction false} TotalCovers<T>(xs: seq<T>, k: nat, f: T -> nat)
    requires k < |xs|
    ensures f(xs[k]) <= Total(xs, f)
    decreases |xs|
  {
    if k < |xs| - 1 {
      TotalCovers(xs[..|xs| - 1], k, f);
    }
  }

  /** A positive sum has a positive summand. */
  lemma {:induction false} TotalWitness<T>(xs: seq<T>, f: T -> nat) returns (k: nat)
    requires Total(xs, f) > 0
    ensures k < |xs| && f(xs[k]) > 0
    decreases |xs|
  {
    k := |xs| - 1;
    if f(xs[k]) == 0 {
      k := TotalWitness(xs[..|xs| - 1], f);
    }
  }

  lemma {:induction false} TotalZero<T>(xs: seq<T>, f: T -> nat)
    requires forall k :: 0 <= k < |xs| ==> f(xs[k]) == 0
    ensures Total(xs, f) == 0
    decreases |xs|
  {
    if xs != [] {
      TotalZero(xs[..|xs| - 1], f);
    }
  }
}
