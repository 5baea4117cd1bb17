/** Sums of squared differences over paired samples, and the Cauchy-Schwarz identity
    that bounds them.  Everything about kappa and about mae/rmse rests on these. */
module PowerSums {
  import opened Sums

  function Square(x: real): real { x * x }

  function SumSquares(x: seq<real>): real {
    if x == [] then 0.0 else SumSquares(x[..|x| - 1]) + Square(x[|x| - 1])
  }

  function Dot(x: seq<real>, y: seq<real>): real
    requires |x| == |y|
  {
    if x == [] then 0.0 else Dot(x[..|x| - 1], y[..|x| - 1]) + x[|x| - 1] * y[|x| - 1]
  }

  // Squared differences of the pairs.
  function Paired(x: seq<real>, y: seq<real>): real
    requires |x| == |y|
  {
    if x == [] then 0.0 else Paired(x[..|x| - 1], y[..|x| - 1]) + Square(x[|x| - 1] - y[|x| - 1])
  }

  // Squared differences of v to every y.
  function ToAll(v: real, y: seq<real>): real {
    if y == [] then 0.0 else ToAll(v, y[..|y| - 1]) + Square(v - y[|y| - 1])
  }

  // Squared differences of every x to every y: what chance agreement would give.
  function Crossed(x: seq<real>, y: seq<real>): real {
    if x == [] then 0.0 else Crossed(x[..|x| - 1], y) + ToAll(x[|x| - 1], y)
  }

  function Added(x: seq<real>, y: seq<real>): (s: seq<real>)
    requires |x| == |y|
    ensures |s| == |x|
  {
    seq(|x|, k requires 0 <= k < |x| => x[k] + y[k])
  }

  lemma {:induction false} ToAllExpands(v: real, y: seq<real>, n: real)
    requires n == |y| as real
    ensures ToAll(v, y) == Spread(n, v, Sum(y), SumSquares(y))
  {
    if y != [] {
      var last, init := y[|y| - 1], y[..|y| - 1];
      ToAllExpands(v, init, n - 1.0);
      SpreadStep(n, v, Sum(init), SumSquares(init), last);
    }
  }

  // n values with the given sum and sum of squares, seen from v.
  function Spread(n: real, v: real, s1: real, s2: real): real {
    n * (v * v) - 2.0 * (v * s1) + s2
  }

  lemma SpreadStep(n: real, v: real, s1: real, s2: real, last: real)
    ensures Spread(n, v, s1 + last, s2 + Square(last)) == Spread(n - 1.0, v, s1, s2) + Square(v - last)
  {
  }

  // The same seen from k values with sum a and sum of squares a2.
  function Spreads(k: real, a: real, a2: real, n: real, s1: real, s2: real): real {
    n * a2 - 2.0 * (a * s1) + k * s2
  }

  lemma SpreadsStep(k: real, a: real, a2: real, n: real, s1: real, s2: real, v: real)
    ensures Spreads(k, a + v, a2 + Square(v), n, s1, s2) == Spreads(k - 1.0, a, a2, n, s1, s2) + Spread(n, v, s1, s2)
  {
  }

  lemma {:induction false} CrossedExpands(x: seq<real>, y: seq<real>, k: real, n: real)
    requires k == |x| as real && n == |y| as real
    ensures Crossed(x, y) == Spreads(k, Sum(x), SumSquares(x), n, Sum(y), SumSquares(y))
  {
    if x == [] {
      assert Spreads(0.0, 0.0, 0.0, n, Sum(y), SumSquares(y)) == 0.0;
    } else {
      var v, init := x[|x| - 1], x[..|x| - 1];
      CrossedExpands(init, y, k - 1.0, n);
      ToAllExpands(v, y, n);
      SpreadsStep(k, Sum(init), SumSquares(init), n, Sum(y), SumSquares(y), v);
    }
  }

  lemma {:induction false} PairedExpands(x: seq<real>, y: seq<real>)
    requires |x| == |y|
    ensures Paired(x, y) == SumSquares(x) - 2.0 * Dot(x, y) + SumSquares(y)
  {
    if x != [] {
      PairedExpands(x[..|x| - 1], y[..|x| - 1]);
    }
  }

  lemma {:induction false} AddedExpands(x: seq<real>, y: seq<real>)
    requires |x| == |y|
    ensures Sum(Added(x, y)) == Sum(x) + Sum(y)
    ensures SumSquares(Added(x, y)) == SumSquares(x) + 2.0 * Dot(x, y) + SumSquares(y)
  {
    hide Square;
    if x != [] {
      var n := |x| - 1;
      AddedExpands(x[..n], y[..n]);
      assert Added(x, y)[..n] == Added(x[..n], y[..n]);
      SquareOfSum(x[n], y[n], Added(x, y)[n]);
    }
  }

  lemma SquareOfSum(a: real, b: real, s: real)
    requires s == a + b
    ensures Square(s) == Square(a) + 2.0 * (a * b) + Square(b)
  {
  }

  // n times the covariance of the pairs, up to a factor n.
  function Covariance(n: real, p: real, a: real, b: real): real {
    n * p - a * b
  }

  /** The gap between chance disagreement and observed disagreement is the covariance. */
  lemma CovarianceIdentity(x: seq<real>, y: seq<real>, n: real)
    requires |x| == |y| && n == |x| as real
    ensures Crossed(x, y) == n * Paired(x, y) + 2.0 * Covariance(n, Dot(x, y), Sum(x), Sum(y))
  {
    hide *;
    CrossedExpands(x, y, n, n);
    PairedExpands(x, y);
    GapIsCovariance(n, Sum(x), SumSquares(x), Sum(y), SumSquares(y), Dot(x, y), Paired(x, y), Crossed(x, y));
  }

  lemma GapIsCovariance(n: real, a: real, a2: real, b: real, b2: real, p: real, d: real, c: real)
    requires d == a2 - 2.0 * p + b2
    requires c == Spreads(n, a, a2, n, b, b2)
    ensures c == n * d + 2.0 * Covariance(n, p, a, b)
  {
  }

  /** Twice the way to total disagreement is a sum of squares. */
  lemma OppositeIdentity(x: seq<real>, y: seq<real>, n: real)
    requires |x| == |y| && n == |x| as real
    ensures 4.0 * Crossed(x, y) - 2.0 * (n * Paired(x, y))
         == Crossed(Added(x, y), Added(x, y)) + 2.0 * Square(Sum(x) - Sum(y))
  {
    hide *;
    CrossedExpands(x, y, n, n);
    PairedExpands(x, y);
    AddedExpands(x, y);
    CrossedExpands(Added(x, y), Added(x, y), n, n);
    Opposite(n, Sum(x), SumSquares(x), Sum(y), SumSquares(y), Dot(x, y), Paired(x, y), Crossed(x, y),
      Sum(Added(x, y)), SumSquares(Added(x, y)), Crossed(Added(x, y), Added(x, y)),
      n * Paired(x, y), Square(Sum(x) - Sum(y)));
  }

  lemma Opposite(n: real, a: real, a2: real, b: real, b2: real, p: real, d: real, c: real,
                 s: real, s2: real, t: real, nd: real, square: real)
    requires d == a2 - 2.0 * p + b2 && c == Spreads(n, a, a2, n, b, b2)
    requires s == a + b && s2 == a2 + 2.0 * p + b2 && t == Spreads(n, s, s2, n, s, s2)
    requires nd == n * d && square == Square(a - b)
    ensures 4.0 * c - 2.0 * nd == t + 2.0 * square
  {
    assert nd == n * a2 - 2.0 * (n * p) + n * b2;
    assert n * s2 == n * a2 + 2.0 * (n * p) + n * b2;
    assert s * s == a * a + 2.0 * (a * b) + b * b;
    assert square == a * a - 2.0 * (a * b) + b * b;
    OppositeTerms(c, nd, t, square, n * s2, s * s, n * a2, n * b2, n * p, a * b, a * a, b * b);
  }

  lemma OppositeTerms(c: real, nd: real, t: real, square: real, ns2: real, ss: real,
                      na2: real, nb2: real, np: real, ab: real, aa: real, bb: real)
    requires c == na2 - 2.0 * ab + nb2 && nd == na2 - 2.0 * np + nb2
    requires t == 2.0 * ns2 - 2.0 * ss && ns2 == na2 + 2.0 * np + nb2 && ss == aa + 2.0 * ab + bb
    requires square == aa - 2.0 * ab + bb
    ensures 4.0 * c - 2.0 * nd == t + 2.0 * square
  {
  }

  lemma {:induction false} ToAllZero(v: real, y: seq<real>)
    ensures ToAll(v, y) >= 0.0
    ensures ToAll(v, y) == 0.0 <==> forall l :: 0 <= l < |y| ==> y[l] == v
  {
    if y != [] {
      var n := |y| - 1;
      ToAllZero(v, y[..n]);
      SquareZero(v - y[n]);
      assert y == y[..n] + [y[n]];
    }
  }

  lemma SameSign(a: real, b: real, p: real)
    requires p == a * b && ((a > 0.0 && b > 0.0) || (a < 0.0 && b < 0.0))
    ensures p > 0.0
  {
  }

  lemma SquareZero(x: real)
    ensures Square(x) >= 0.0 && (Square(x) == 0.0 <==> x == 0.0)
  {
    if x != 0.0 { SameSign(x, x, Square(x)); }
  }

  /** No disagreement is possible by chance exactly when there is a single value. */
  lemma {:induction false} CrossedZero(x: seq<real>, y: seq<real>)
    ensures Crossed(x, y) >= 0.0
    ensures Crossed(x, y) == 0.0 <==> forall k, l :: 0 <= k < |x| && 0 <= l < |y| ==> x[k] == y[l]
  {
    if x != [] {
      CrossedZero(x[..|x| - 1], y);
      ToAllZero(x[|x| - 1], y);
      if Crossed(x, y) == 0.0 {
        forall k, l | 0 <= k < |x| && 0 <= l < |y| ensures x[k] == y[l] {
          if k < |x| - 1 { assert x[..|x| - 1][k] == y[l]; }
        }
      }
      if forall k, l :: 0 <= k < |x| && 0 <= l < |y| ==> x[k] == y[l] {
        forall l | 0 <= l < |y| ensures y[l] == x[|x| - 1] { assert x[|x| - 1] == y[l]; }
      }
    }
  }

  lemma {:induction false} PairedZero(x: seq<real>, y: seq<real>)
    requires |x| == |y|
    ensures Paired(x, y) >= 0.0
    ensures Paired(x, y) == 0.0 <==> x == y
  {
    if x != [] {
      var n := |x| - 1;
      PairedZero(x[..n], y[..n]);
      SquareZero(x[n] - y[n]);
      assert x == x[..n] + [x[n]] && y == y[..n] + [y[n]];
    }
  }

  lemma {:induction false} PairedSymmetric(x: seq<real>, y: seq<real>)
    requires |x| == |y|
    ensures Paired(x, y) == Paired(y, x)
  {
    if x != [] { PairedSymmetric(x[..|x| - 1], y[..|x| - 1]); }
  }

  lemma CrossedSymmetric(x: seq<real>, y: seq<real>)
    ensures Crossed(x, y) == Crossed(y, x)
  {
    CrossedExpands(x, y, |x| as real, |y| as real);
    CrossedExpands(y, x, |y| as real, |x| as real);
  }

  // ----- mean absolute and root mean square error

  function AbsErrors(x: seq<real>, y: seq<real>): (e: seq<real>)
    requires |x| == |y|
    ensures |e| == |x|
  {
    seq(|x|, k requires 0 <= k < |x| => if x[k] < y[k] then y[k] - x[k] else x[k] - y[k])
  }

  lemma {:induction false} AbsErrorsSquared(x: seq<real>, y: seq<real>)
    requires |x| == |y|
    ensures SumSquares(AbsErrors(x, y)) == Paired(x, y) && Sum(AbsErrors(x, y)) >= 0.0
  {
    if x != [] {
      var n := |x| - 1;
      AbsErrorsSquared(x[..n], y[..n]);
      assert AbsErrors(x, y)[..n] == AbsErrors(x[..n], y[..n]);
    }
  }

  // Cauchy-Schwarz, from Crossed(e, e) >= 0.
  lemma SquaredSum(e: seq<real>, n: real)
    requires n == |e| as real
    ensures Square(Sum(e)) <= n * SumSquares(e)
  {
    CrossedExpands(e, e, n, n);
    CrossedZero(e, e);
    assert Spreads(n, Sum(e), SumSquares(e), n, Sum(e), SumSquares(e))
        == 2.0 * (n * SumSquares(e)) - 2.0 * Square(Sum(e));
  }
}
