/** `quadratic_weighted_kappa` of backend/app/eval/metrics.py: the histogram double loop,
    and what its value means for the paired ratings. */
module Kappa {
  import opened Wrappers
  import opened Sums
  import opened PowerSums

  datatype KappaError = LengthMismatch | RatingOutOfRange

  // ----- the value, on paired samples

  // 1 - (observed disagreement) / (disagreement expected by chance).
  function Value(x: seq<real>, y: seq<real>): real
    requires |x| == |y|
  {
    if Crossed(x, y) == 0.0 then 1.0 else 1.0 - |x| as real * Paired(x, y) / Crossed(x, y)
  }

  lemma Ratio(p: real, q: real, k: real)
    requires q > 0.0 && k == 1.0 - p / q
    ensures p >= 0.0 ==> k <= 1.0
    ensures p <= 2.0 * q ==> -1.0 <= k
    ensures k == 1.0 <==> p == 0.0
    ensures k == -1.0 <==> p == 2.0 * q
    ensures k == 0.0 <==> p == q
    ensures k * q == q - p
  {
    var r := p / q;
    assert r * q == p;
    Compare(r, q, p, 0.0, 0.0);
    Compare(r, q, p, 1.0, q);
    Compare(r, q, p, 2.0, 2.0 * q);
    assert k * q == q - r * q;
  }

  lemma Compare(r: real, q: real, p: real, t: real, tq: real)
    requires r * q == p && q > 0.0 && t * q == tq
    ensures r <= t <==> p <= tq
    ensures r >= t <==> p >= tq
  {
    Sign(t - r, q, tq - p);
  }

  lemma Sign(d: real, q: real, dq: real)
    requires q > 0.0 && dq == d * q
    ensures (d >= 0.0 <==> dq >= 0.0) && (d <= 0.0 <==> dq <= 0.0)
  {
  }

  // n * Paired lies between 0 and twice the chance disagreement.
  lemma Between(x: seq<real>, y: seq<real>, p: real, q: real)
    requires |x| == |y| && p == |x| as real * Paired(x, y) && q == Crossed(x, y)
    ensures 0.0 <= p <= 2.0 * q && q >= 0.0
    ensures x != [] ==> (p == 0.0 <==> x == y)
    ensures 4.0 * q - 2.0 * p == Crossed(Added(x, y), Added(x, y)) + 2.0 * Square(Sum(x) - Sum(y))
  {
    hide *;
    PairedZero(x, y);
    CrossedZero(x, y);
    CrossedZero(Added(x, y), Added(x, y));
    SquareZero(Sum(x) - Sum(y));
    OppositeIdentity(x, y, |x| as real);
    Scaled(|x| as real, Paired(x, y), p);
  }

  lemma Scaled(n: real, d: real, p: real)
    requires n >= 0.0 && d >= 0.0 && p == n * d
    ensures p >= 0.0 && (n > 0.0 ==> (p == 0.0 <==> d == 0.0))
  {
  }

  /** The value lies in [-1, 1], whatever the ratings. */
  lemma Range(x: seq<real>, y: seq<real>)
    requires |x| == |y|
    ensures -1.0 <= Value(x, y) <= 1.0
  {
    var p, q := |x| as real * Paired(x, y), Crossed(x, y);
    Between(x, y, p, q);
    if q != 0.0 { Ratio(p, q, Value(x, y)); }
  }

  /** 1 means pointwise agreement, and nothing else does. */
  lemma OneIff(x: seq<real>, y: seq<real>)
    requires |x| == |y| && x != []
    ensures Value(x, y) == 1.0 <==> x == y
  {
    var p, q := |x| as real * Paired(x, y), Crossed(x, y);
    Between(x, y, p, q);
    if q != 0.0 {
      Ratio(p, q, Value(x, y));
    } else {
      CrossedZero(x, y);
      forall k | 0 <= k < |x| ensures x[k] == y[k] { }
    }
  }

  /** 0 means no covariance between ratings that could have disagreed. */
  lemma ZeroIff(x: seq<real>, y: seq<real>)
    requires |x| == |y|
    ensures Value(x, y) == 0.0 <==>
      Crossed(x, y) != 0.0 && Covariance(|x| as real, Dot(x, y), Sum(x), Sum(y)) == 0.0
  {
    hide Crossed, Paired, Covariance;
    var p, q := |x| as real * Paired(x, y), Crossed(x, y);
    Between(x, y, p, q);
    CovarianceIdentity(x, y, |x| as real);
    if q != 0.0 { Ratio(p, q, Value(x, y)); }
  }

  /** Two raters who always give one rating: covariance 0, and yet the value is 1. */
  lemma NoCovarianceAndOne()
    ensures var x := [3.0, 3.0];
      Covariance(2.0, Dot(x, x), Sum(x), Sum(x)) == 0.0 && Value(x, x) == 1.0
  {
    var x := [3.0, 3.0];
    OneIff(x, x);
    assert Crossed(x, x) == 0.0 by { CrossedZero(x, x); }
    CovarianceIdentity(x, x, 2.0);
    assert Paired(x, x) == 0.0 by { PairedZero(x, x); }
  }

  /** In general the value is twice the covariance over the chance disagreement. */
  lemma Meaning(x: seq<real>, y: seq<real>)
    requires |x| == |y| && Crossed(x, y) != 0.0
    ensures Value(x, y) * Crossed(x, y) == 2.0 * Covariance(|x| as real, Dot(x, y), Sum(x), Sum(y))
  {
    hide Crossed, Paired, Covariance, Sum, Dot;
    var p, q := |x| as real * Paired(x, y), Crossed(x, y);
    var c := Covariance(|x| as real, Dot(x, y), Sum(x), Sum(y));
    CovarianceIdentity(x, y, |x| as real);
    TimesDenominator(p, q, Value(x, y), c);
  }

  lemma TimesDenominator(p: real, q: real, k: real, c: real)
    requires q != 0.0 && k == 1.0 - p / q && q == p + 2.0 * c
    ensures k * q == 2.0 * c
  {
    var d := p / q;
    assert d * q == p;
    assert k * q == q - d * q;
  }

  /** -1 means every pair is mirrored in one point, and both raters have that point as mean. */
  lemma MinusOneIff(x: seq<real>, y: seq<real>)
    requires |x| == |y|
    ensures Value(x, y) == -1.0 <==>
      && Crossed(x, y) != 0.0
      && Sum(x) == Sum(y)
      && (forall k, l :: 0 <= k < |x| && 0 <= l < |x| ==> x[k] + y[k] == x[l] + y[l])
  {
    hide Crossed, Paired, Sum, Square;
    var p, q, s := |x| as real * Paired(x, y), Crossed(x, y), Added(x, y);
    Between(x, y, p, q);
    if q != 0.0 {
      Ratio(p, q, Value(x, y));
      SquareZero(Sum(x) - Sum(y));
      CrossedZero(s, s);
      MirroredIff(x, y);
    }
  }

  lemma MirroredIff(x: seq<real>, y: seq<real>)
    requires |x| == |y|
    ensures (forall k, l :: 0 <= k < |x| && 0 <= l < |x| ==> Added(x, y)[k] == Added(x, y)[l])
       <==> (forall k, l :: 0 <= k < |x| && 0 <= l < |x| ==> x[k] + y[k] == x[l] + y[l])
  {
    var s := Added(x, y);
    if forall k, l :: 0 <= k < |x| && 0 <= l < |x| ==> s[k] == s[l] {
      forall k, l | 0 <= k < |x| && 0 <= l < |x| ensures x[k] + y[k] == x[l] + y[l] {
        assert s[k] == s[l];
      }
    }
  }

  /** Neither rater is privileged. */
  lemma Symmetric(x: seq<real>, y: seq<real>)
    requires |x| == |y|
    ensures Value(x, y) == Value(y, x)
  {
    hide Paired, Crossed;
    CrossedSymmetric(x, y);
    PairedSymmetric(x, y);
  }

  // ----- sums weighted by counts

  ghost function Hist(a: seq<int>, k: nat, v: int): nat
    requires k <= |a|
  {
    if k == 0 then 0 else Hist(a, k - 1, v) + (if a[k - 1] == v then 1 else 0)
  }

  function Pairs(a: seq<int>, b: seq<int>, k: nat, v: int, w: int): nat
    requires k <= |a| && k <= |b|
  {
    if k == 0 then 0 else Pairs(a, b, k - 1, v, w) + (if a[k - 1] == v && b[k - 1] == w then 1 else 0)
  }

  function Real(a: seq<int>): (x: seq<real>)
    ensures |x| == |a|
  {
    seq(|a|, k requires 0 <= k < |a| => a[k] as real)
  }

  // `((i - j) ** 2) / ((num - 1) ** 2)`
  function Weight(num: nat, i: int, j: int): real
    requires num > 1
  {
    Square((i - j) as real) / Square((num - 1) as real)
  }

  // The part of row i, columns below m, of the numerator sum.
  ghost function ObservedRow(num: nat, a: seq<int>, b: seq<int>, k: nat, i: int, m: nat): real
    requires num > 1 && k <= |a| && k <= |b|
  {
    if m == 0 then 0.0
    else ObservedRow(num, a, b, k, i, m - 1) + Weight(num, i, m - 1) * Pairs(a, b, k, i, m - 1) as real
  }

  ghost function ObservedRows(num: nat, a: seq<int>, b: seq<int>, k: nat, r: nat): real
    requires num > 1 && k <= |a| && k <= |b|
  {
    if r == 0 then 0.0
    else ObservedRows(num, a, b, k, r - 1) + ObservedRow(num, a, b, k, r - 1, num)
  }

  lemma CountOne(w: real, c: nat)
    ensures w * (c + 1) as real == w * c as real + w
  {
    assert (c + 1) as real == c as real + 1.0;
  }

  // One more sample adds the weight of its pair, in its row.
  lemma {:induction false} ObservedRowGrows(num: nat, a: seq<int>, b: seq<int>, k: nat, i: int, m: nat)
    requires num > 1 && k < |a| && k < |b| && 0 <= b[k]
    ensures ObservedRow(num, a, b, k + 1, i, m)
         == ObservedRow(num, a, b, k, i, m) + (if a[k] == i && b[k] < m then Weight(num, i, b[k]) else 0.0)
  {
    hide Weight;
    if m > 0 {
      ObservedRowGrows(num, a, b, k, i, m - 1);
      CountOne(Weight(num, i, m - 1), Pairs(a, b, k, i, m - 1));
    }
  }

  lemma {:induction false} ObservedRowsGrow(num: nat, a: seq<int>, b: seq<int>, k: nat, r: nat)
    requires num > 1 && k < |a| && k < |b| && 0 <= a[k] && 0 <= b[k] < num
    ensures ObservedRows(num, a, b, k + 1, r)
         == ObservedRows(num, a, b, k, r) + (if a[k] < r then Weight(num, a[k], b[k]) else 0.0)
  {
    hide Weight;
    if r > 0 {
      ObservedRowsGrow(num, a, b, k, r - 1);
      ObservedRowGrows(num, a, b, k, r - 1, num);
    }
  }

  ghost predicate Slots(a: seq<int>, num: nat) {
    forall k :: 0 <= k < |a| ==> 0 <= a[k] < num
  }

  lemma {:induction false} NothingObserved(num: nat, a: seq<int>, b: seq<int>, i: int, m: nat)
    requires num > 1
    ensures ObservedRow(num, a, b, 0, i, m) == 0.0
  {
    hide Weight;
    if m > 0 {
      NothingObserved(num, a, b, i, m - 1);
      assert Weight(num, i, m - 1) * 0.0 == 0.0;
    }
  }

  lemma {:induction false} NothingObservedAtAll(num: nat, a: seq<int>, b: seq<int>, r: nat)
    requires num > 1
    ensures ObservedRows(num, a, b, 0, r) == 0.0
  {
    if r > 0 {
      NothingObservedAtAll(num, a, b, r - 1);
      NothingObserved(num, a, b, r - 1, num);
    }
  }

  lemma WeightScaled(num: nat, i: int, j: int, c: real)
    requires num > 1 && c == Square((num - 1) as real)
    ensures c > 0.0 && c * Weight(num, i, j) == Square(i as real - j as real)
  {
    SquareZero((num - 1) as real);
    assert (i - j) as real == i as real - j as real;
  }

  /** The numerator loop computes the observed disagreement. */
  lemma {:induction false} NumeratorIsPaired(num: nat, a: seq<int>, b: seq<int>, k: nat, c: real)
    requires num > 1 && k <= |a| == |b| && Slots(a, num) && Slots(b, num) && c == Square((num - 1) as real)
    ensures c * ObservedRows(num, a, b, k, num) == Paired(Real(a)[..k], Real(b)[..k])
  {
    hide Weight, Square;
    if k == 0 {
      NothingObservedAtAll(num, a, b, num);
      assert c * 0.0 == 0.0;
    } else {
      NumeratorIsPaired(num, a, b, k - 1, c);
      ObservedRowsGrow(num, a, b, k - 1, num);
      WeightScaled(num, a[k - 1], b[k - 1], c);
      var x, y := Real(a)[..k], Real(b)[..k];
      assert x[..k - 1] == Real(a)[..k - 1] && y[..k - 1] == Real(b)[..k - 1];
      Distribute(c, ObservedRows(num, a, b, k - 1, num), Weight(num, a[k - 1], b[k - 1]),
        ObservedRows(num, a, b, k, num));
    }
  }

  lemma Distribute(c: real, u: real, v: real, s: real)
    requires s == u + v
    ensures c * s == c * u + c * v
  {
  }

  // Expected counts: row i of the denominator, columns below m.
  ghost function ExpectedRow(num: nat, a: seq<int>, b: seq<int>, i: int, m: nat): real
    requires num > 1 && |a| == |b| > 0
  {
    if m == 0 then 0.0
    else ExpectedRow(num, a, b, i, m - 1) + Weight(num, i, m - 1) * Expected(a, b, i, m - 1)
  }

  // `hist_true[i] * hist_pred[j] / n`
  ghost function Expected(a: seq<int>, b: seq<int>, i: int, j: int): real
    requires |a| == |b| > 0
  {
    (Hist(a, |a|, i) * Hist(b, |b|, j)) as real / |a| as real
  }

  ghost function ExpectedRows(num: nat, a: seq<int>, b: seq<int>, r: nat): real
    requires num > 1 && |a| == |b| > 0
  {
    if r == 0 then 0.0
    else ExpectedRows(num, a, b, r - 1) + ExpectedRow(num, a, b, r - 1, num)
  }

  // Sum over columns below m of the squared distance to i, weighted by the first k of b.
  ghost function Reach(i: int, b: seq<int>, k: nat, m: nat): real
    requires k <= |b|
  {
    if m == 0 then 0.0
    else Reach(i, b, k, m - 1) + Square(i as real - (m - 1) as real) * Hist(b, k, m - 1) as real
  }

  lemma {:induction false} ReachGrows(i: int, b: seq<int>, k: nat, m: nat)
    requires k < |b| && 0 <= b[k]
    ensures Reach(i, b, k + 1, m)
         == Reach(i, b, k, m) + (if b[k] < m then Square(i as real - b[k] as real) else 0.0)
  {
    hide Square;
    if m > 0 {
      ReachGrows(i, b, k, m - 1);
      CountOne(Square(i as real - (m - 1) as real), Hist(b, k, m - 1));
    }
  }

  lemma {:induction false} ReachNothing(i: int, b: seq<int>, m: nat)
    ensures Reach(i, b, 0, m) == 0.0
  {
    hide Square;
    if m > 0 {
      ReachNothing(i, b, m - 1);
      assert Square(i as real - (m - 1) as real) * 0.0 == 0.0;
    }
  }

  lemma {:induction false} ReachIsToAll(i: int, b: seq<int>, k: nat, num: nat)
    requires k <= |b| && Slots(b, num)
    ensures Reach(i, b, k, num) == ToAll(i as real, Real(b)[..k])
  {
    hide Square;
    if k == 0 {
      ReachNothing(i, b, num);
    } else {
      ReachIsToAll(i, b, k - 1, num);
      ReachGrows(i, b, k - 1, num);
      assert Real(b)[..k][..k - 1] == Real(b)[..k - 1];
    }
  }

  // Rows of the denominator, cleared of both divisions.
  ghost function Reaches(a: seq<int>, k: nat, b: seq<int>, num: nat, r: nat): real
    requires k <= |a|
  {
    if r == 0 then 0.0
    else Reaches(a, k, b, num, r - 1) + Hist(a, k, r - 1) as real * Reach(r - 1, b, |b|, num)
  }

  lemma {:induction false} ReachesGrow(a: seq<int>, k: nat, b: seq<int>, num: nat, r: nat)
    requires k < |a| && 0 <= a[k]
    ensures Reaches(a, k + 1, b, num, r) == Reaches(a, k, b, num, r)
      + (if a[k] < r then Reach(a[k], b, |b|, num) else 0.0)
  {
    hide Reach;
    if r > 0 {
      ReachesGrow(a, k, b, num, r - 1);
      CountOne(Reach(r - 1, b, |b|, num), Hist(a, k, r - 1));
    }
  }

  lemma {:induction false} ReachesNothing(a: seq<int>, b: seq<int>, num: nat, r: nat)
    ensures Reaches(a, 0, b, num, r) == 0.0
  {
    hide Reach;
    if r > 0 {
      ReachesNothing(a, b, num, r - 1);
      assert 0.0 * Reach(r - 1, b, |b|, num) == 0.0;
    }
  }

  lemma {:induction false} ReachesIsCrossed(a: seq<int>, k: nat, b: seq<int>, num: nat)
    requires k <= |a| && Slots(a, num) && Slots(b, num)
    ensures Reaches(a, k, b, num, num) == Crossed(Real(a)[..k], Real(b))
  {
    hide Reach;
    if k == 0 {
      ReachesNothing(a, b, num, num);
    } else {
      ReachesIsCrossed(a, k - 1, b, num);
      ReachesGrow(a, k - 1, b, num, num);
      ReachIsToAll(a[k - 1], b, |b|, num);
      assert Real(b)[..|b|] == Real(b) && Real(a)[..k][..k - 1] == Real(a)[..k - 1];
    }
  }

  lemma {:induction false} ExpectedRowScaled(num: nat, a: seq<int>, b: seq<int>, i: int, m: nat, c: real)
    requires num > 1 && |a| == |b| > 0 && c == |a| as real * Square((num - 1) as real)
    ensures c * ExpectedRow(num, a, b, i, m) == Hist(a, |a|, i) as real * Reach(i, b, |b|, m)
  {
    hide Weight, Square, Expected, Hist;
    if m == 0 {
      assert c * 0.0 == 0.0 && Hist(a, |a|, i) as real * 0.0 == 0.0;
    } else {
      var h, d := Hist(a, |a|, i) as real, Square(i as real - (m - 1) as real);
      var g := Hist(b, |b|, m - 1) as real;
      ExpectedRowScaled(num, a, b, i, m - 1, c);
      CellScaled(num, a, b, i, m - 1, c, d);
      Distribute(c, ExpectedRow(num, a, b, i, m - 1), Weight(num, i, m - 1) * Expected(a, b, i, m - 1),
        ExpectedRow(num, a, b, i, m));
      Distribute(h, Reach(i, b, |b|, m - 1), d * g, Reach(i, b, |b|, m));
    }
  }

  lemma CellScaled(num: nat, a: seq<int>, b: seq<int>, i: int, j: int, c: real, d: real)
    requires num > 1 && |a| == |b| > 0 && c == |a| as real * Square((num - 1) as real)
    requires d == Square(i as real - j as real)
    ensures c * (Weight(num, i, j) * Expected(a, b, i, j)) == Hist(a, |a|, i) as real * (d * Hist(b, |b|, j) as real)
  {
    hide Square;
    WeightScaled(num, i, j, Square((num - 1) as real));
    Cell(|a| as real, Square((num - 1) as real), Weight(num, i, j), d,
      Hist(a, |a|, i), Hist(b, |b|, j), Expected(a, b, i, j), c);
  }

  lemma Cell(n: real, s: real, w: real, d: real, h: nat, g: nat, e: real, c: real)
    requires n > 0.0 && s * w == d && e == (h * g) as real / n && c == n * s
    ensures c * (w * e) == h as real * (d * g as real)
  {
    assert (h * g) as real == h as real * g as real;
    assert n * e == h as real * g as real;
    assert c * (w * e) == (s * w) * (n * e);
    assert (s * w) * (n * e) == d * (h as real * g as real);
  }

  lemma {:induction false} DenominatorRows(num: nat, a: seq<int>, b: seq<int>, r: nat, c: real)
    requires num > 1 && |a| == |b| > 0 && c == |a| as real * Square((num - 1) as real)
    ensures c * ExpectedRows(num, a, b, r) == Reaches(a, |a|, b, num, r)
  {
    hide ExpectedRow, Reach, Square;
    if r == 0 {
      assert c * 0.0 == 0.0;
    } else {
      DenominatorRows(num, a, b, r - 1, c);
      ExpectedRowScaled(num, a, b, r - 1, num, c);
      Distribute(c, ExpectedRows(num, a, b, r - 1), ExpectedRow(num, a, b, r - 1, num), ExpectedRows(num, a, b, r));
    }
  }

  /** The denominator loop computes the disagreement expected by chance. */
  lemma DenominatorIsCrossed(num: nat, a: seq<int>, b: seq<int>, c: real)
    requires num > 1 && |a| == |b| > 0 && Slots(a, num) && Slots(b, num)
    requires c == |a| as real * Square((num - 1) as real)
    ensures c * ExpectedRows(num, a, b, num) == Crossed(Real(a), Real(b))
  {
    DenominatorRows(num, a, b, num, c);
    ReachesIsCrossed(a, |a|, b, num);
    assert Real(a)[..|a|] == Real(a);
  }

  /** The quotient of the two loops is the value on the samples: the range drops out. */
  lemma LoopsGiveValue(num: nat, a: seq<int>, b: seq<int>, numerator: real, denominator: real, r: real)
    requires num > 1 && |a| == |b| > 0 && Slots(a, num) && Slots(b, num)
    requires numerator == ObservedRows(num, a, b, |a|, num) && denominator == ExpectedRows(num, a, b, num)
    requires denominator == 0.0 ==> r == 1.0
    requires denominator != 0.0 ==> r == 1.0 - numerator / denominator
    ensures r == Value(Real(a), Real(b))
  {
    hide Weight, Square, ObservedRows, ExpectedRows, Paired, Crossed;
    var s, n := Square((num - 1) as real), |a| as real;
    NumeratorIsPaired(num, a, b, |a|, s);
    assert Real(a)[..|a|] == Real(a) && Real(b)[..|a|] == Real(b);
    DenominatorIsCrossed(num, a, b, n * s);
    SquareZero((num - 1) as real);
    Cancel(n, s, numerator, denominator, n * Paired(Real(a), Real(b)), Crossed(Real(a), Real(b)));
  }

  lemma Cancel(n: real, s: real, u: real, v: real, p: real, q: real)
    requires n > 0.0 && s > 0.0 && p == n * (s * u) && q == (n * s) * v
    ensures q == 0.0 <==> v == 0.0
    ensures v != 0.0 ==> p / q == u / v
  {
    var c := n * s;
    assert c > 0.0 && p == c * u;
    if v != 0.0 {
      var r := u / v;
      assert r * v == u;
      assert r * (c * v) == c * (r * v);
    }
  }
}
