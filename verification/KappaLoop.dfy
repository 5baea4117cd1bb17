/** The code of `quadratic_weighted_kappa`: argument checks, the counting loop with
    Python's wrap-around indexing, and the double loop over the rating range. */
module KappaLoop {
  import opened Wrappers
  import opened Sums
  import opened PowerSums
  import opened Kappa

  // ----- specification

  // Python's `round`: to the nearest integer, ties to the even one.
  function RoundHalfEven(v: real): int {
    var d := v - v.Floor as real;
    if d < 0.5 then v.Floor
    else if d > 0.5 then v.Floor + 1
    else if v.Floor % 2 == 0 then v.Floor
    else v.Floor + 1
  }

  // `[int(round(v)) for v in ...]`
  function RoundAll(ratings: seq<real>): (s: seq<int>)
    ensures |s| == |ratings|
  {
    seq(|ratings|, k requires 0 <= k < |ratings| => RoundHalfEven(ratings[k]))
  }

  function Least(s: seq<int>): (m: int)
    requires s != []
    ensures m in s && forall k :: 0 <= k < |s| ==> m <= s[k]
  {
    var init := s[..|s| - 1];
    if init == [] then s[0]
    else
      var m := Least(init);
      if s[|s| - 1] < m then s[|s| - 1] else m
  }

  function Greatest(s: seq<int>): (m: int)
    requires s != []
    ensures m in s && forall k :: 0 <= k < |s| ==> s[k] <= m
  {
    var init := s[..|s| - 1];
    if init == [] then s[0]
    else
      var m := Greatest(init);
      if s[|s| - 1] > m then s[|s| - 1] else m
  }

  function Low(yTrue: seq<int>, yPred: seq<int>, minRating: Option<int>): int
    requires yTrue != [] && yPred != []
  {
    match minRating
    case Some(m) => m
    case None => if Least(yTrue) <= Least(yPred) then Least(yTrue) else Least(yPred)
  }

  function High(yTrue: seq<int>, yPred: seq<int>, maxRating: Option<int>): int
    requires yTrue != [] && yPred != []
  {
    match maxRating
    case Some(m) => m
    case None => if Greatest(yTrue) >= Greatest(yPred) then Greatest(yTrue) else Greatest(yPred)
  }

  // Where a Python list of length num is indexed by d: negative d counts from the end.
  function Index(d: int, num: nat): Option<nat> {
    if 0 <= d < num then Some(d)
    else if d < 0 <= d + num then Some(d + num)
    else None
  }

  predicate Indexable(s: seq<int>, low: int, num: nat) {
    forall k :: 0 <= k < |s| ==> Index(s[k] - low, num).Some?
  }

  function Indexed(s: seq<int>, low: int, num: nat): (a: seq<int>)
    requires Indexable(s, low, num)
    ensures |a| == |s| && Slots(a, num)
  {
    seq(|s|, k requires 0 <= k < |s| => Index(s[k] - low, num).value)
  }

  function KappaOf(yTrue: seq<int>, yPred: seq<int>, minRating: Option<int>, maxRating: Option<int>)
    : Result<Option<real>, KappaError>
  {
    if |yTrue| != |yPred| then Err(LengthMismatch)
    else if yTrue == [] then Ok(None)
    else
      var low := Low(yTrue, yPred, minRating);
      var num := High(yTrue, yPred, maxRating) - low + 1;
      if num <= 1 then Ok(Some(1.0))
      else if !Indexable(yTrue, low, num) || !Indexable(yPred, low, num) then Err(RatingOutOfRange)
      else Ok(Some(Value(Real(Indexed(yTrue, low, num)), Real(Indexed(yPred, low, num)))))
  }

  // ----- the code

  method QuadraticWeightedKappa(trueRatings: seq<real>, predRatings: seq<real>, minRating: Option<int>,
                                 maxRating: Option<int>)
    returns (r: Result<Option<real>, KappaError>)
    ensures r == KappaOf(RoundAll(trueRatings), RoundAll(predRatings), minRating, maxRating)
  {
    hide Value, Hist, Pairs, ObservedRows, ExpectedRows, Low, High, Slots, RoundHalfEven;
    if |trueRatings| != |predRatings| { return Err(LengthMismatch); }
    if trueRatings == [] { return Ok(None); }
    var yTrue, yPred := RoundAll(trueRatings), RoundAll(predRatings);
    var low := Low(yTrue, yPred, minRating);
    var num := High(yTrue, yPred, maxRating) - low + 1;
    if num <= 1 { return Ok(Some(1.0)); }
    var observed := new nat[num, num]((_, _) => 0);
    var histTrue := new nat[num](_ => 0);
    var histPred := new nat[num](_ => 0);
    var inRange := CountRatings(yTrue, yPred, low, num, observed, histTrue, histPred);
    if !inRange { return Err(RatingOutOfRange); }
    ghost var a, b := Indexed(yTrue, low, num), Indexed(yPred, low, num);
    var numerator, denominator := WeighCounts(a, b, num, observed, histTrue, histPred, |yTrue|);
    var value := if denominator == 0.0 then 1.0 else 1.0 - numerator / denominator;
    LoopsGiveValue(num, a, b, numerator, denominator, value);
    r := Ok(Some(value));
  }

  // The counting loop; false where it raises IndexError.
  method CountRatings(yTrue: seq<int>, yPred: seq<int>, low: int, num: nat,
                      observed: array2<nat>, histTrue: array<nat>, histPred: array<nat>)
    returns (ok: bool)
    requires |yTrue| == |yPred| && histTrue != histPred
    requires observed.Length0 == observed.Length1 == histTrue.Length == histPred.Length == num
    requires forall i, j :: 0 <= i < num && 0 <= j < num ==> observed[i, j] == 0
    requires forall i :: 0 <= i < num ==> histTrue[i] == 0 && histPred[i] == 0
    modifies observed, histTrue, histPred
    ensures ok <==> Indexable(yTrue, low, num) && Indexable(yPred, low, num)
    ensures ok ==>
      Counted(Indexed(yTrue, low, num), Indexed(yPred, low, num), |yTrue|, num, observed, histTrue, histPred)
  {
    hide Hist, Pairs;
    ghost var a: seq<int>, b: seq<int> := [], [];
    NothingCounted();
    for k := 0 to |yTrue|
      invariant Indexable(yTrue[..k], low, num) && Indexable(yPred[..k], low, num)
      invariant a == Indexed(yTrue[..k], low, num) && b == Indexed(yPred[..k], low, num)
      invariant Counted(a, b, k, num, observed, histTrue, histPred)
    {
      var i, j := Index(yTrue[k] - low, num), Index(yPred[k] - low, num);
      if i.None? || j.None? { return false; }
      observed[i.value, j.value] := observed[i.value, j.value] + 1;
      histTrue[i.value] := histTrue[i.value] + 1;
      histPred[j.value] := histPred[j.value] + 1;
      CountsOfPrefix(a, b, i.value, j.value);
      a, b := a + [i.value], b + [j.value];
      assert yTrue[..k + 1] == yTrue[..k] + [yTrue[k]] && yPred[..k + 1] == yPred[..k] + [yPred[k]];
    }
    assert yTrue[..|yTrue|] == yTrue && yPred[..|yTrue|] == yPred;
    return true;
  }

  lemma NothingCounted()
    ensures forall v: int :: Hist([], 0, v) == 0
    ensures forall v: int, w: int :: Pairs([], [], 0, v, w) == 0
  {
  }

  ghost predicate Counted(a: seq<int>, b: seq<int>, k: nat, num: nat,
                          observed: array2<nat>, histTrue: array<nat>, histPred: array<nat>)
    requires k == |a| == |b|
    reads observed, histTrue, histPred
  {
    && observed.Length0 == observed.Length1 == histTrue.Length == histPred.Length == num
    && (forall i, j :: 0 <= i < num && 0 <= j < num ==> observed[i, j] == Pairs(a, b, k, i, j))
    && (forall i :: 0 <= i < num ==> histTrue[i] == Hist(a, k, i))
    && (forall j :: 0 <= j < num ==> histPred[j] == Hist(b, k, j))
  }

  lemma {:induction false} HistPrefix(a: seq<int>, b: seq<int>, k: nat, v: int)
    requires k <= |a| && k <= |b| && a[..k] == b[..k]
    ensures Hist(a, k, v) == Hist(b, k, v)
  {
    if k > 0 {
      assert a[..k - 1] == a[..k][..k - 1] && b[..k - 1] == b[..k][..k - 1];
      assert a[k - 1] == a[..k][k - 1] && b[k - 1] == b[..k][k - 1];
      HistPrefix(a, b, k - 1, v);
    }
  }

  lemma {:induction false} PairsPrefix(a: seq<int>, b: seq<int>, c: seq<int>, d: seq<int>, k: nat, v: int, w: int)
    requires k <= |a| && k <= |b| && k <= |c| && k <= |d| && a[..k] == c[..k] && b[..k] == d[..k]
    ensures Pairs(a, b, k, v, w) == Pairs(c, d, k, v, w)
  {
    if k > 0 {
      assert a[..k - 1] == a[..k][..k - 1] && b[..k - 1] == b[..k][..k - 1];
      assert c[..k - 1] == c[..k][..k - 1] && d[..k - 1] == d[..k][..k - 1];
      assert a[k - 1] == a[..k][k - 1] && c[k - 1] == c[..k][k - 1];
      assert b[k - 1] == b[..k][k - 1] && d[k - 1] == d[..k][k - 1];
      PairsPrefix(a, b, c, d, k - 1, v, w);
    }
  }

  // Counting one more pair.
  lemma CountsOfPrefix(a: seq<int>, b: seq<int>, i: nat, j: nat)
    requires |a| == |b|
    ensures forall v :: Hist(a + [i], |a| + 1, v) == Hist(a, |a|, v) + (if v == i then 1 else 0)
    ensures forall w :: Hist(b + [j], |a| + 1, w) == Hist(b, |a|, w) + (if w == j then 1 else 0)
    ensures forall v, w ::
      Pairs(a + [i], b + [j], |a| + 1, v, w) == Pairs(a, b, |a|, v, w) + (if v == i && w == j then 1 else 0)
  {
    var k := |a|;
    assert (a + [i])[..k] == a == a[..k] && (b + [j])[..k] == b == b[..k];
    forall v ensures Hist(a + [i], k, v) == Hist(a, k, v) { HistPrefix(a + [i], a, k, v); }
    forall w ensures Hist(b + [j], k, w) == Hist(b, k, w) { HistPrefix(b + [j], b, k, w); }
    forall v, w ensures Pairs(a + [i], b + [j], k, v, w) == Pairs(a, b, k, v, w) {
      PairsPrefix(a + [i], b + [j], a, b, k, v, w);
    }
  }

  // The double loop.
  method WeighCounts(ghost a: seq<int>, ghost b: seq<int>, num: nat,
                     observed: array2<nat>, histTrue: array<nat>, histPred: array<nat>, n: nat)
    returns (numerator: real, denominator: real)
    requires num > 1 && n == |a| == |b| > 0
    requires Counted(a, b, n, num, observed, histTrue, histPred)
    ensures numerator == ObservedRows(num, a, b, n, num)
    ensures denominator == ExpectedRows(num, a, b, num)
  {
    hide Weight, Hist, Pairs;
    numerator, denominator := 0.0, 0.0;
    for i := 0 to num
      invariant numerator == ObservedRows(num, a, b, n, i)
      invariant denominator == ExpectedRows(num, a, b, i)
    {
      for j := 0 to num
        invariant numerator == ObservedRows(num, a, b, n, i) + ObservedRow(num, a, b, n, i, j)
        invariant denominator == ExpectedRows(num, a, b, i) + ExpectedRow(num, a, b, i, j)
      {
        var weight := Weight(num, i, j);
        var expected := (histTrue[i] * histPred[j]) as real / n as real;
        numerator := numerator + weight * observed[i, j] as real;
        denominator := denominator + weight * expected;
      }
    }
  }

  // ----- what callers get

  /** A list of length num takes the indices from -num to num - 1, the negative ones from its end. */
  lemma IndexMeaning(d: int, num: nat)
    ensures Index(d, num) == if -(num as int) <= d < num then Some(if d >= 0 then d else num + d) else None
  {
  }

  // All ratings lie in the range or one range length below it.
  ghost predicate Around(s: seq<int>, low: int, num: int) {
    forall k :: 0 <= k < |s| ==> low - num <= s[k] < low + num
  }

  lemma AroundIndexes(s: seq<int>, low: int, num: nat)
    ensures Around(s, low, num) <==> Indexable(s, low, num)
  {
    forall k | 0 <= k < |s| ensures Index(s[k] - low, num).Some? <==> low - num <= s[k] < low + num {
      IndexMeaning(s[k] - low, num);
    }
  }

  /** Every outcome: an error for lists of different lengths, nothing for empty ones, 1 for a range of at most
      one rating, an error exactly when some rating cannot index, else the value of the indexed ratings. */
  lemma KappaCases(yTrue: seq<int>, yPred: seq<int>, minRating: Option<int>, maxRating: Option<int>)
    ensures var r := KappaOf(yTrue, yPred, minRating, maxRating);
      && (|yTrue| != |yPred| ==> r == Err(LengthMismatch))
      && (|yTrue| == |yPred| == 0 ==> r == Ok(None))
      && (|yTrue| == |yPred| > 0 ==>
            var low := Low(yTrue, yPred, minRating); var num := High(yTrue, yPred, maxRating) - low + 1;
            && (num <= 1 ==> r == Ok(Some(1.0)))
            && (num > 1 && !(Around(yTrue, low, num) && Around(yPred, low, num)) ==> r == Err(RatingOutOfRange))
            && (num > 1 && Around(yTrue, low, num) && Around(yPred, low, num) ==>
                  && Indexable(yTrue, low, num) && Indexable(yPred, low, num)
                  && r == Ok(Some(Value(Real(Indexed(yTrue, low, num)), Real(Indexed(yPred, low, num)))))))
  {
    hide Value, Low, High;
    if |yTrue| == |yPred| > 0 {
      var low := Low(yTrue, yPred, minRating);
      var num := High(yTrue, yPred, maxRating) - low + 1;
      if num > 1 {
        AroundIndexes(yTrue, low, num);
        AroundIndexes(yPred, low, num);
      }
    }
  }

  // m is nearest to v, and even when two integers are.
  ghost predicate NearestEven(v: real, m: int) {
    -0.5 <= m as real - v <= 0.5 && (m as real - v == 0.5 || m as real - v == -0.5 ==> m % 2 == 0)
  }

  /** Rounding goes to the nearest integer, and from halfway to the even one. */
  lemma RoundIsNearestEven(v: real, m: int)
    ensures NearestEven(v, m) <==> RoundHalfEven(v) == m
  {
    var f := v.Floor;
    assert f as real <= v < f as real + 1.0;
    if NearestEven(v, m) { assert f <= m <= f + 1; }
  }

  /** Ratings that are integers already are left alone. */
  lemma RoundingFixesIntegers(s: seq<int>)
    ensures RoundAll(Real(s)) == s
  {
    forall k | 0 <= k < |s| ensures RoundAll(Real(s))[k] == s[k] {
      assert (s[k] as real).Floor == s[k];
    }
  }

  ghost predicate Within(s: seq<int>, low: int, high: int) {
    forall k :: 0 <= k < |s| ==> low <= s[k] <= high
  }

  /** Whatever the arguments, a value that comes back lies in [-1, 1]. */
  lemma ResultInRange(yTrue: seq<int>, yPred: seq<int>, minRating: Option<int>, maxRating: Option<int>, value: real)
    requires KappaOf(yTrue, yPred, minRating, maxRating) == Ok(Some(value))
    ensures -1.0 <= value <= 1.0
  {
    var low := Low(yTrue, yPred, minRating);
    var num := High(yTrue, yPred, maxRating) - low + 1;
    if num > 1 { Range(Real(Indexed(yTrue, low, num)), Real(Indexed(yPred, low, num))); }
  }

  function Shifted(x: seq<real>, c: real): (y: seq<real>)
    ensures |y| == |x|
  {
    seq(|x|, k requires 0 <= k < |x| => x[k] - c)
  }

  lemma {:induction false} PairedShifts(x: seq<real>, y: seq<real>, c: real)
    requires |x| == |y|
    ensures Paired(Shifted(x, c), Shifted(y, c)) == Paired(x, y)
  {
    if x != [] {
      var n := |x| - 1;
      assert Shifted(x, c)[..n] == Shifted(x[..n], c) && Shifted(y, c)[..n] == Shifted(y[..n], c);
      PairedShifts(x[..n], y[..n], c);
    }
  }

  lemma {:induction false} ToAllShifts(v: real, y: seq<real>, c: real)
    ensures ToAll(v - c, Shifted(y, c)) == ToAll(v, y)
  {
    if y != [] {
      var n := |y| - 1;
      assert Shifted(y, c)[..n] == Shifted(y[..n], c);
      ToAllShifts(v, y[..n], c);
    }
  }

  lemma {:induction false} CrossedShifts(x: seq<real>, y: seq<real>, c: real)
    ensures Crossed(Shifted(x, c), Shifted(y, c)) == Crossed(x, y)
  {
    if x != [] {
      var n := |x| - 1;
      assert Shifted(x, c)[..n] == Shifted(x[..n], c);
      CrossedShifts(x[..n], y, c);
      ToAllShifts(x[n], y, c);
    }
  }

  /** With every rating in the range, the range does not matter: the result is the value on
      the ratings themselves, also when the code returns early because the range is one rating. */
  lemma RangeDropsOut(yTrue: seq<int>, yPred: seq<int>, minRating: Option<int>, maxRating: Option<int>)
    requires |yTrue| == |yPred| > 0
    requires Within(yTrue, Low(yTrue, yPred, minRating), High(yTrue, yPred, maxRating))
    requires Within(yPred, Low(yTrue, yPred, minRating), High(yTrue, yPred, maxRating))
    ensures KappaOf(yTrue, yPred, minRating, maxRating) == Ok(Some(Value(Real(yTrue), Real(yPred))))
  {
    hide Value, Low, High, Least, Greatest;
    var low := Low(yTrue, yPred, minRating);
    var num := High(yTrue, yPred, maxRating) - low + 1;
    if num <= 1 {
      assert yTrue[0] == low;
      SingleRating(yTrue, yPred, low);
    } else {
      InRangeIndexes(yTrue, low, num);
      InRangeIndexes(yPred, low, num);
      ShiftedValue(yTrue, yPred, Indexed(yTrue, low, num), Indexed(yPred, low, num), low);
    }
  }

  lemma InRangeIndexes(s: seq<int>, low: int, num: nat)
    requires Within(s, low, low + num - 1)
    ensures Indexable(s, low, num)
    ensures forall k :: 0 <= k < |s| ==> Indexed(s, low, num)[k] == s[k] - low
  {
  }

  lemma SingleRating(yTrue: seq<int>, yPred: seq<int>, low: int)
    requires |yTrue| == |yPred| && Within(yTrue, low, low) && Within(yPred, low, low)
    ensures Value(Real(yTrue), Real(yPred)) == 1.0
  {
    CrossedZero(Real(yTrue), Real(yPred));
  }

  lemma ShiftedValue(yTrue: seq<int>, yPred: seq<int>, a: seq<int>, b: seq<int>, low: int)
    requires |yTrue| == |yPred| == |a| == |b|
    requires forall k :: 0 <= k < |a| ==> a[k] == yTrue[k] - low
    requires forall k :: 0 <= k < |b| ==> b[k] == yPred[k] - low
    ensures Value(Real(a), Real(b)) == Value(Real(yTrue), Real(yPred))
  {
    hide Paired, Crossed;
    assert Real(a) == Shifted(Real(yTrue), low as real);
    assert Real(b) == Shifted(Real(yPred), low as real);
    PairedShifts(Real(yTrue), Real(yPred), low as real);
    CrossedShifts(Real(yTrue), Real(yPred), low as real);
  }

  /** Without a given range every rating is in range. */
  lemma OwnRange(yTrue: seq<int>, yPred: seq<int>)
    requires |yTrue| == |yPred| > 0
    ensures KappaOf(yTrue, yPred, None, None) == Ok(Some(Value(Real(yTrue), Real(yPred))))
  {
    var low, high := Low(yTrue, yPred, None), High(yTrue, yPred, None);
    assert Within(yTrue, low, high) && Within(yPred, low, high);
    RangeDropsOut(yTrue, yPred, None, None);
  }

  lemma SumOfTwo(a: real, b: real)
    ensures Sum([a, b]) == a + b
  {
    var none: seq<real> := [];
    assert [a, b][..1] == [a] && [a][..0] == none;
    assert Sum(none) == 0.0;
    assert Sum([a]) == Sum([a][..0]) + a;
    assert Sum([a, b]) == Sum([a, b][..1]) + b;
  }

  /** Opposite ratings give -1. */
  lemma OppositeIsMinusOne()
    ensures KappaOf([0, 1], [1, 0], None, None) == Ok(Some(-1.0))
  {
    hide Value, KappaOf;
    OwnRange([0, 1], [1, 0]);
    var x, y := Real([0, 1]), Real([1, 0]);
    assert x == [0.0, 1.0] && y == [1.0, 0.0];
    SumOfTwo(0.0, 1.0);
    SumOfTwo(1.0, 0.0);
    assert Crossed(x, y) != 0.0 by { CrossedZero(x, y); assert x[0] != y[0]; }
    MinusOneIff(x, y);
  }

  // Two ratings that a list of length num cannot tell apart: equal, or one list length away.
  predicate SameCell(a: int, b: int, num: int) {
    a == b || a == b + num || b == a + num
  }

  lemma SameCellIff(a: int, b: int, low: int, num: nat)
    requires Index(a - low, num).Some? && Index(b - low, num).Some?
    ensures Index(a - low, num) == Index(b - low, num) <==> SameCell(a, b, num)
  {
  }

  /** When the result is 1, whatever the arguments: the range has at most one rating, or every
      rating can be counted and every pair falls on the diagonal, wrapped around or not. */
  lemma PerfectIff(yTrue: seq<int>, yPred: seq<int>, minRating: Option<int>, maxRating: Option<int>)
    requires |yTrue| == |yPred| > 0
    ensures var low := Low(yTrue, yPred, minRating); var num := High(yTrue, yPred, maxRating) - low + 1;
      KappaOf(yTrue, yPred, minRating, maxRating) == Ok(Some(1.0)) <==>
        || num <= 1
        || (&& Indexable(yTrue, low, num) && Indexable(yPred, low, num)
            && forall k :: 0 <= k < |yTrue| ==> SameCell(yTrue[k], yPred[k], num))
  {
    hide Value, Low, High, Index;
    var low := Low(yTrue, yPred, minRating);
    var num := High(yTrue, yPred, maxRating) - low + 1;
    if num > 1 && Indexable(yTrue, low, num) && Indexable(yPred, low, num) {
      var a, b := Indexed(yTrue, low, num), Indexed(yPred, low, num);
      OneIff(Real(a), Real(b));
      RealInjective(a, b);
      forall k | 0 <= k < |yTrue| ensures a[k] == b[k] <==> SameCell(yTrue[k], yPred[k], num) {
        SameCellIff(yTrue[k], yPred[k], low, num);
      }
    }
  }

  lemma RealInjective(a: seq<int>, b: seq<int>)
    requires |a| == |b|
    ensures Real(a) == Real(b) <==> forall k :: 0 <= k < |a| ==> a[k] == b[k]
  {
    if Real(a) == Real(b) {
      forall k | 0 <= k < |a| ensures a[k] == b[k] { assert Real(a)[k] == Real(b)[k]; }
    }
  }

  /** Exactly when a result of 1 hides disagreement: the lists differ, and the range is a single
      rating or less, or every difference between them is one full range under the wrap-around. */
  lemma HiddenDisagreementIff(yTrue: seq<int>, yPred: seq<int>, minRating: Option<int>, maxRating: Option<int>)
    requires |yTrue| == |yPred| > 0
    ensures var low := Low(yTrue, yPred, minRating); var num := High(yTrue, yPred, maxRating) - low + 1;
      KappaOf(yTrue, yPred, minRating, maxRating) == Ok(Some(1.0)) && yTrue != yPred <==>
        && (exists k :: 0 <= k < |yTrue| && yTrue[k] != yPred[k])
        && (|| num <= 1
            || (&& Indexable(yTrue, low, num) && Indexable(yPred, low, num)
                && forall k :: 0 <= k < |yTrue| && yTrue[k] != yPred[k] ==>
                  yTrue[k] - yPred[k] == num || yPred[k] - yTrue[k] == num))
  {
    hide KappaOf, Low, High, Indexable;
    PerfectIff(yTrue, yPred, minRating, maxRating);
    DifferSomewhere(yTrue, yPred);
  }

  lemma DifferSomewhere(s: seq<int>, t: seq<int>)
    requires |s| == |t|
    ensures s != t <==> exists k :: 0 <= k < |s| && s[k] != t[k]
  {
  }

  /** In range 1 means the two raters gave the same ratings. */
  lemma PerfectInRange(yTrue: seq<int>, yPred: seq<int>, minRating: Option<int>, maxRating: Option<int>)
    requires |yTrue| == |yPred| > 0
    requires Within(yTrue, Low(yTrue, yPred, minRating), High(yTrue, yPred, maxRating))
    requires Within(yPred, Low(yTrue, yPred, minRating), High(yTrue, yPred, maxRating))
    ensures KappaOf(yTrue, yPred, minRating, maxRating) == Ok(Some(1.0)) <==> yTrue == yPred
  {
    hide Value, KappaOf, Low, High;
    RangeDropsOut(yTrue, yPred, minRating, maxRating);
    OneIff(Real(yTrue), Real(yPred));
    RealInjective(yTrue, yPred);
    DifferSomewhere(yTrue, yPred);
  }

  /** Both ways of hiding occur: the early return, and the wrap-around. */
  lemma OutOfRangeCanLookPerfect()
    ensures KappaOf([0], [5], Some(0), Some(0)) == Ok(Some(1.0))
    ensures KappaOf([0], [2], Some(1), Some(2)) == Ok(Some(1.0))
  {
    PerfectIff([0], [5], Some(0), Some(0));
    PerfectIff([0], [2], Some(1), Some(2));
  }
}
