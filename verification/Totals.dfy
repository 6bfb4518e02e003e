/** Adding a weight up over all threads of a system. */
module Totals {

  function Total<T>(xs: seq<T>, weight: T -> nat): nat {
    if xs == [] then 0 else weight(xs[0]) + Total(xs[1..], weight)
  }

  /** One thread moving changes the total by that thread's change only. */
  lemma {:induction false} TotalAfterUpdate<T>(xs: seq<T>, c: nat, x: T, weight: T -> nat)
    requires c < |xs|
    ensures Total(xs[c := x], weight) + weight(xs[c]) == Total(xs, weight) + weight(x)
  {
    if c == 0 {
      assert xs[0 := x][1..] == xs[1..];
    } else {
      assert xs[c := x][1..] == xs[1..][c - 1 := x];
      TotalAfterUpdate(xs[1..], c - 1, x, weight);
    }
  }

  lemma {:induction false} TotalAtLeast<T>(xs: seq<T>, c: nat, weight: T -> nat)
    requires c < |xs|
    ensures weight(xs[c]) <= Total(xs, weight)
  {
    if c > 0 {
      TotalAtLeast(xs[1..], c - 1, weight);
    }
  }

  lemma {:induction false} TotalOfEqualWeights<T>(xs: seq<T>, weight: T -> nat, w: nat)
    requires forall x :: x in xs ==> weight(x) == w
    ensures Total(xs, weight) == |xs| * w
  {
    if xs != [] {
      TotalOfEqualWeights(xs[1..], weight, w);
      assert |xs| * w == w + (|xs| - 1) * w;
    }
  }
}
