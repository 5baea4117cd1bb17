/** Sums of sequences. */
module Sums {
  function SumInt(x: seq<int>): int {
    if x == [] then 0 else SumInt(x[..|x| - 1]) + x[|x| - 1]
  }

  function Sum(x: seq<real>): real {
    if x == [] then 0.0 else Sum(x[..|x| - 1]) + x[|x| - 1]
  }

  lemma {:induction false} SumConcat(x: seq<real>, y: seq<real>)
    ensures Sum(x + y) == Sum(x) + Sum(y)
  {
    if y == [] {
      assert x + y == x;
    } else {
      assert (x + y)[..|x + y| - 1] == x + y[..|y| - 1];
      SumConcat(x, y[..|y| - 1]);
    }
  }

  lemma SumPrefix(x: seq<real>, k: nat)
    requires 0 < k <= |x|
    ensures Sum(x[..k]) == Sum(x[..k - 1]) + x[k - 1]
  {
    assert x[..k][..k - 1] == x[..k - 1];
  }

  lemma {:induction false} SumChanged(y: seq<int>, i: nat, v: int)
    requires i < |y|
    ensures SumInt(y[i := v]) == SumInt(y) - y[i] + v
  {
    var n := |y| - 1;
    if i < n {
      SumChanged(y[..n], i, v);
      assert y[i := v][..n] == y[..n][i := v];
    } else {
      assert y[i := v][..n] == y[..n];
    }
  }
}
