/** Adding up over a list. */
module Sums {
  function Sum<T>(xs: seq<T>, weight: T -> nat): nat {
    if xs == [] then 0 else Sum(xs[..|xs| - 1], weight) + weight(xs[|xs| - 1])
  }

  lemma {:induction false} SumUpdated<T>(xs: seq<T>, weight: T -> nat, t: nat, x: T)
    requires t < |xs|
    ensures Sum(xs[t := x], weight) + weight(xs[t]) == Sum(xs, weight) + weight(x)
    decreases |xs|
  {
    var k, ys := |xs| - 1, xs[t := x];
    if t < k {
      assert ys[..k] == xs[..k][t := x];
      SumUpdated(xs[..k], weight, t, x);
    } else {
      assert ys[..k] == xs[..k];
    }
  }

  lemma {:induction false} SumCovers<T>(xs: seq<T>, weight: T -> nat, t: nat)
    requires t < |xs|
    ensures weight(xs[t]) <= Sum(xs, weight)
    decreases |xs|
  {
    if t < |xs| - 1 {
      SumCovers(xs[..|xs| - 1], weight, t);
    }
  }

  lemma {:induction false} SumNone<T>(xs: seq<T>, weight: T -> nat)
    requires forall x | x in xs :: weight(x) == 0
    ensures Sum(xs, weight) == 0
    decreases |xs|
  {
    if xs != [] {
      SumNone(xs[..|xs| - 1], weight);
    }
  }
}
