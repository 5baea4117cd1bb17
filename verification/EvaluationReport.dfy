/** `evaluate` of backend/app/eval/runner.py: one pairing of predictions with truths, and the
    metrics computed from it. */
module EvaluationReport {
  import opened Wrappers
  import opened Sums
  import opened PowerSums
  import opened Kappa
  import opened KappaLoop
  import opened GradeScale

  // ----- counting grades of paired samples

  ghost predicate Grades(g: seq<int>, size: nat) {
    forall k :: 0 <= k < |g| ==> 0 <= g[k] < size
  }

  // `grade_confusion`: rows are the human grades, columns the system grades.
  method GradeConfusion(g: seq<int>, h: seq<int>, size: nat) returns (matrix: array2<nat>)
    requires |g| == |h| && Grades(g, size) && Grades(h, size)
    ensures fresh(matrix) && matrix.Length0 == matrix.Length1 == size
    ensures forall i, j :: 0 <= i < size && 0 <= j < size ==> matrix[i, j] == Pairs(g, h, |g|, i, j)
  {
    matrix := new nat[size, size]((_, _) => 0);
    for k := 0 to |g|
      invariant forall i, j :: 0 <= i < size && 0 <= j < size ==> matrix[i, j] == Pairs(g, h, k, i, j)
    {
      matrix[g[k], h[k]] := matrix[g[k], h[k]] + 1;
    }
  }

  // Cells of row i, columns from lo up to hi.
  ghost function RowSum(g: seq<int>, h: seq<int>, k: nat, i: int, lo: int, hi: int): nat
    requires k <= |g| && k <= |h|
    decreases hi - lo
  {
    if hi <= lo then 0 else RowSum(g, h, k, i, lo, hi - 1) + Pairs(g, h, k, i, hi - 1)
  }

  ghost function ColumnSum(g: seq<int>, h: seq<int>, k: nat, j: int, m: nat): nat
    requires k <= |g| && k <= |h|
  {
    if m == 0 then 0 else ColumnSum(g, h, k, j, m - 1) + Pairs(g, h, k, m - 1, j)
  }

  // The cells within `reach` of the diagonal, in the first m rows.
  ghost function NearDiagonal(g: seq<int>, h: seq<int>, k: nat, reach: nat, m: nat): nat
    requires k <= |g| && k <= |h|
  {
    if m == 0 then 0
    else NearDiagonal(g, h, k, reach, m - 1) + RowSum(g, h, k, m - 1, m - 1 - reach, m + reach)
  }

  ghost function Everything(g: seq<int>, h: seq<int>, k: nat, size: nat, m: nat): nat
    requires k <= |g| && k <= |h|
  {
    if m == 0 then 0 else Everything(g, h, k, size, m - 1) + RowSum(g, h, k, m - 1, 0, size)
  }

  // `sum(1 for t, p in zip(...) if abs(t - p) <= reach)`
  function Agreeing(g: seq<int>, h: seq<int>, k: nat, reach: nat): nat
    requires k <= |g| && k <= |h|
  {
    if k == 0 then 0
    else Agreeing(g, h, k - 1, reach) + (if -(reach as int) <= g[k - 1] - h[k - 1] <= reach then 1 else 0)
  }

  lemma {:induction false} RowGrows(g: seq<int>, h: seq<int>, k: nat, i: int, lo: int, hi: int)
    requires 0 < k <= |g| && k <= |h|
    ensures RowSum(g, h, k, i, lo, hi)
         == RowSum(g, h, k - 1, i, lo, hi) + (if g[k - 1] == i && lo <= h[k - 1] < hi then 1 else 0)
    decreases hi - lo
  {
    if lo < hi { RowGrows(g, h, k, i, lo, hi - 1); }
  }

  lemma {:induction false} NearDiagonalGrows(g: seq<int>, h: seq<int>, k: nat, reach: nat, m: nat)
    requires 0 < k <= |g| && k <= |h| && g[k - 1] >= 0
    ensures NearDiagonal(g, h, k, reach, m) == NearDiagonal(g, h, k - 1, reach, m)
      + (if g[k - 1] < m && -(reach as int) <= g[k - 1] - h[k - 1] <= reach then 1 else 0)
  {
    if m > 0 {
      NearDiagonalGrows(g, h, k, reach, m - 1);
      RowGrows(g, h, k, m - 1, m - 1 - reach, m + reach);
    }
  }

  lemma {:induction false} EverythingGrows(g: seq<int>, h: seq<int>, k: nat, size: nat, m: nat)
    requires 0 < k <= |g| && k <= |h| && g[k - 1] >= 0 && 0 <= h[k - 1] < size
    ensures Everything(g, h, k, size, m) == Everything(g, h, k - 1, size, m) + (if g[k - 1] < m then 1 else 0)
  {
    if m > 0 {
      EverythingGrows(g, h, k, size, m - 1);
      RowGrows(g, h, k, m - 1, 0, size);
    }
  }

  lemma {:induction false} ColumnGrows(g: seq<int>, h: seq<int>, k: nat, j: int, m: nat)
    requires 0 < k <= |g| && k <= |h| && g[k - 1] >= 0
    ensures ColumnSum(g, h, k, j, m)
         == ColumnSum(g, h, k - 1, j, m) + (if g[k - 1] < m && h[k - 1] == j then 1 else 0)
  {
    if m > 0 { ColumnGrows(g, h, k, j, m - 1); }
  }

  lemma {:induction false} NothingYet(g: seq<int>, h: seq<int>, i: int, lo: int, hi: int, reach: nat, size: nat, m: nat)
    ensures RowSum(g, h, 0, i, lo, hi) == 0
    ensures ColumnSum(g, h, 0, i, m) == 0
    ensures NearDiagonal(g, h, 0, reach, m) == 0
    ensures Everything(g, h, 0, size, m) == 0
    decreases m, hi - lo
  {
    if lo < hi { NothingYet(g, h, i, lo, hi - 1, reach, size, m); }
    if m > 0 {
      NothingYet(g, h, m - 1, m - 1 - reach, m + reach, reach, size, m - 1);
      NothingYet(g, h, m - 1, 0, size, reach, size, m - 1);
      NothingYet(g, h, i, lo, lo, reach, size, m - 1);
    }
  }

  /** The confusion matrix accounts for every pair once, has the two grade histograms as its
      marginals, and its diagonal bands are the agreement counts. */
  lemma {:induction false} ConfusionAccounts(g: seq<int>, h: seq<int>, k: nat, size: nat, reach: nat, v: int)
    requires k <= |g| && k <= |h| && Grades(g, size) && Grades(h, size)
    ensures Everything(g, h, k, size, size) == k
    ensures RowSum(g, h, k, v, 0, size) == Hist(g, k, v)
    ensures ColumnSum(g, h, k, v, size) == Hist(h, k, v)
    ensures NearDiagonal(g, h, k, reach, size) == Agreeing(g, h, k, reach)
  {
    if k == 0 {
      NothingYet(g, h, v, 0, size, reach, size, size);
    } else {
      ConfusionAccounts(g, h, k - 1, size, reach, v);
      EverythingGrows(g, h, k, size, size);
      RowGrows(g, h, k, v, 0, size);
      ColumnGrows(g, h, k, v, size);
      NearDiagonalGrows(g, h, k, reach, size);
    }
  }

  lemma {:induction false} AgreeingEverywhere(g: seq<int>, h: seq<int>, k: nat)
    requires k <= |g| && k <= |h|
    ensures Agreeing(g, h, k, 0) <= Agreeing(g, h, k, 1) <= k
    ensures Agreeing(g, h, k, 0) == k <==> g[..k] == h[..k]
  {
    if k > 0 {
      AgreeingEverywhere(g, h, k - 1);
      assert g[..k] == g[..k - 1] + [g[k - 1]] && h[..k] == h[..k - 1] + [h[k - 1]];
    }
  }

  // ----- mae and rmse

  function Mae(x: seq<real>, y: seq<real>): real
    requires |x| == |y| > 0
  {
    Sum(AbsErrors(x, y)) / |x| as real
  }

  // The square that `rmse` takes the root of.
  function MeanSquare(x: seq<real>, y: seq<real>): real
    requires |x| == |y| > 0
  {
    Paired(x, y) / |x| as real
  }

  /** mae <= rmse: for whichever non-negative root the square has. */
  lemma MaeAtMostRmse(x: seq<real>, y: seq<real>, rmse: real)
    requires |x| == |y| > 0 && rmse >= 0.0 && Square(rmse) == MeanSquare(x, y)
    ensures 0.0 <= Mae(x, y) <= rmse
  {
    hide Sum, SumSquares, Paired;
    AbsErrorsSquared(x, y);
    var e := AbsErrors(x, y);
    SquaredSum(e, |e| as real);
    MeanOfSquares(|x| as real, Sum(e), Paired(x, y), Mae(x, y), MeanSquare(x, y), rmse);
  }

  lemma MeanOfSquares(n: real, s: real, s2: real, mean: real, square: real, root: real)
    requires n > 0.0 && s >= 0.0 && root >= 0.0 && Square(s) <= n * s2
    requires mean == s / n && square == s2 / n && Square(root) == square
    ensures 0.0 <= mean <= root
  {
    assert mean * n == s && square * n == s2;
    Compare(mean, n, s, 0.0, 0.0);
    var nn, aa, bb := n * n, mean * mean, root * root;
    SameSign(n, n, nn);
    assert aa * nn == Square(s);
    assert bb * nn == n * s2 by { assert bb * nn == (square * n) * n; }
    Sign(bb - aa, nn, bb * nn - aa * nn);
    Roots(mean, root, aa, bb);
  }

  lemma Roots(a: real, b: real, aa: real, bb: real)
    requires aa == a * a && bb == b * b && b >= 0.0 && aa <= bb
    ensures a <= b
  {
    if a > b {
      assert aa - bb == (a - b) * (a + b);
      SameSign(a - b, a + b, aa - bb);
      assert false;
    }
  }

  // ----- the report

  // A human or system result: total and criterion scores of one paper.
  datatype Sample = Sample(key: string, total: real, items: map<string, real>)

  datatype EvalError = BadScale(scaleError: ScaleError) | NoBands

  // `rmse` is the non-negative root of `meanSquare`.
  datatype Report = Report(n: nat, unmatched: seq<string>, trueGrades: seq<nat>, predGrades: seq<nat>,
    trueTotals: seq<real>, predTotals: seq<real>, qwk: Option<real>, mae: Option<real>, meanSquare: Option<real>,
    exact: Option<real>, adjacent: Option<real>, confusion: seq<seq<nat>>)

  // `{sample.key: sample for sample in truths}`: the last truth of a key wins.
  function TruthByKey(truths: seq<Sample>): (m: map<string, Sample>)
    ensures forall k :: 0 <= k < |truths| ==> truths[k].key in m
    ensures forall key :: key in m ==> exists k :: 0 <= k < |truths| && truths[k].key == key
  {
    if truths == [] then map[]
    else
      var last := truths[|truths| - 1];
      TruthByKey(truths[..|truths| - 1])[last.key := last]
  }

  // Sample k is the last one under its key.
  ghost predicate LastOfKey(samples: seq<Sample>, k: nat) {
    k < |samples| && forall j :: k < j < |samples| ==> samples[j].key != samples[k].key
  }

  /** The truth under a key is the last sample with that key. */
  lemma {:induction false} LastTruth(samples: seq<Sample>, k: nat) returns (last: nat)
    requires k < |samples|
    ensures k <= last < |samples| && LastOfKey(samples, last) && samples[last].key == samples[k].key
    ensures samples[k].key in TruthByKey(samples) && TruthByKey(samples)[samples[k].key] == samples[last]
  {
    hide TruthByKey, LastOfKey;
    var n := |samples| - 1;
    OneMoreTruth(samples);
    if samples[k].key == samples[n].key {
      last := n;
    } else {
      assert samples[..n][k] == samples[k];
      last := LastTruth(samples[..n], k);
      StillLast(samples, last);
    }
  }

  lemma OneMoreTruth(samples: seq<Sample>)
    requires samples != []
    ensures var n := |samples| - 1;
      LastOfKey(samples, n) && TruthByKey(samples) == TruthByKey(samples[..n])[samples[n].key := samples[n]]
  {
  }

  lemma StillLast(samples: seq<Sample>, last: nat)
    requires samples != [] && LastOfKey(samples[..|samples| - 1], last)
    requires samples[|samples| - 1].key != samples[last].key
    ensures LastOfKey(samples, last)
  {
    forall j | last < j < |samples| ensures samples[j].key != samples[last].key {
      if j < |samples| - 1 { assert samples[..|samples| - 1][j] == samples[j]; }
    }
  }

  // The matched predictions, each with its truth.
  function Pairing(predictions: seq<Sample>, truth: map<string, Sample>): (r: seq<(Sample, Sample)>)
    ensures |r| <= |predictions|
  {
    if predictions == [] then []
    else
      var p := predictions[0];
      (if p.key in truth then [(p, truth[p.key])] else []) + Pairing(predictions[1..], truth)
  }

  function Unmatched(predictions: seq<Sample>, truth: map<string, Sample>): seq<string> {
    if predictions == [] then []
    else
      (if predictions[0].key !in truth then [predictions[0].key] else []) + Unmatched(predictions[1..], truth)
  }

  function NormalizeAll(scale: Scale, totals: seq<real>): (r: Result<seq<real>, ScaleError>)
    ensures r.Ok? ==> |r.value| == |totals|
    ensures r.Ok? ==> forall k :: 0 <= k < |totals| ==> scale.Normalize(totals[k]) == Ok(r.value[k])
  {
    if totals == [] then Ok([])
    else
      match NormalizeAll(scale, totals[..|totals| - 1])
      case Err(e) => Err(e)
      case Ok(init) =>
        match scale.Normalize(totals[|totals| - 1])
        case Err(e) => Err(e)
        case Ok(t) => Ok(init + [t])
  }

  function GradeAll(scale: Scale, totals: seq<real>): (r: Result<seq<nat>, ScaleError>)
    ensures r.Ok? ==> |r.value| == |totals|
    ensures r.Ok? ==> forall k :: 0 <= k < |totals| ==> scale.Ordinal(totals[k]) == Ok(r.value[k])
  {
    if totals == [] then Ok([])
    else
      match GradeAll(scale, totals[..|totals| - 1])
      case Err(e) => Err(e)
      case Ok(init) =>
        match scale.Ordinal(totals[|totals| - 1])
        case Err(e) => Err(e)
        case Ok(g) => Ok(init + [g])
  }

  function Share(count: nat, n: nat): Option<real> {
    if n == 0 then None else Some(count as real / n as real)
  }

  function HumanTotals(pairs: seq<(Sample, Sample)>): (r: seq<real>)
    ensures |r| == |pairs|
  {
    seq(|pairs|, k requires 0 <= k < |pairs| => pairs[k].1.total)
  }

  function SystemTotals(pairs: seq<(Sample, Sample)>): (r: seq<real>)
    ensures |r| == |pairs|
  {
    seq(|pairs|, k requires 0 <= k < |pairs| => pairs[k].0.total)
  }

  // The matrix `grade_confusion` returns.
  function Confusion(g: seq<int>, h: seq<int>, size: nat): (m: seq<seq<nat>>)
    requires |g| == |h|
    ensures |m| == size && forall i :: 0 <= i < size ==> |m[i]| == size
    ensures forall i, j :: 0 <= i < size && 0 <= j < size ==> m[i][j] == Pairs(g, h, |g|, i, j)
  {
    seq(size, i requires 0 <= i < size => seq(size, j requires 0 <= j < size => Pairs(g, h, |g|, i, j)))
  }

  // The report of `evaluate`, but for the fields that only restate its arguments.
  function Evaluate(predictions: seq<Sample>, truths: seq<Sample>, scale: Scale): Result<Report, EvalError> {
    var truth := TruthByKey(truths);
    var pairs := Pairing(predictions, truth);
    match (NormalizeAll(scale, HumanTotals(pairs)), NormalizeAll(scale, SystemTotals(pairs)))
    case (Ok(t), Ok(p)) => (
      match (GradeAll(scale, t), GradeAll(scale, p))
      case (Ok(g), Ok(h)) =>
        if pairs != [] && scale.bands == [] then Err(NoBands)
        else
          var n := |pairs|;
          var qwk := KappaOf(g, h, Some(0), Some(|scale.bands| - 1));
          Ok(Report(n, Unmatched(predictions, truth), g, h, t, p,
            if qwk.Ok? then qwk.value else None,
            if n == 0 then None else Some(Mae(t, p)), if n == 0 then None else Some(MeanSquare(t, p)),
            Share(Agreeing(g, h, n, 0), n), Share(Agreeing(g, h, n, 1), n), Confusion(g, h, |scale.bands|)))
      case (Err(e), _) => Err(BadScale(e))
      case (_, Err(e)) => Err(BadScale(e)))
    case (Err(e), _) => Err(BadScale(e))
    case (_, Err(e)) => Err(BadScale(e))
  }

  lemma {:induction false} PairedOrUnmatched(predictions: seq<Sample>, truth: map<string, Sample>)
    ensures |Pairing(predictions, truth)| + |Unmatched(predictions, truth)| == |predictions|
  {
    if predictions != [] { PairedOrUnmatched(predictions[1..], truth); }
  }

  lemma ShareFacts(count: nat, n: nat)
    requires 0 < n && count <= n
    ensures 0.0 <= Share(count, n).value <= 1.0
    ensures Share(count, n) == Some(1.0) <==> count == n
  {
    var r := count as real / n as real;
    assert r * n as real == count as real;
    Compare(r, n as real, count as real, 1.0, n as real);
    Compare(r, n as real, count as real, 0.0, 0.0);
  }

  lemma GradesInScale(scale: Scale, totals: seq<real>)
    requires scale.Usable() && scale.bands != [] && GradeAll(scale, totals).Ok?
    ensures Grades(GradeAll(scale, totals).value, |scale.bands|)
  {
    forall k | 0 <= k < |totals| ensures GradeAll(scale, totals).value[k] < |scale.bands| {
      OrdinalLaws(scale, totals[k], totals[k]);
    }
  }

  lemma {:induction false} UsableNeverFails(scale: Scale, totals: seq<real>)
    requires scale.Usable()
    ensures NormalizeAll(scale, totals).Ok? && GradeAll(scale, totals).Ok?
    ensures GradeAll(scale, NormalizeAll(scale, totals).value) == GradeAll(scale, totals)
  {
    if totals != [] {
      var last, init := totals[|totals| - 1], totals[..|totals| - 1];
      UsableNeverFails(scale, init);
      OrdinalLaws(scale, last, last);
      NormalizeLaws(scale, last, last);
      var r := NormalizeAll(scale, totals).value;
      assert r[..|r| - 1] == NormalizeAll(scale, init).value;
    }
  }

  /** With a usable scale the report is always produced, and its numbers describe one pairing:
      every prediction is paired or listed as unmatched; the grades are those of the raw totals;
      the rates are ordered shares; kappa is in range; and perfect kappa is exactly perfect
      grade agreement. */
  lemma OnePairing(predictions: seq<Sample>, truths: seq<Sample>, scale: Scale)
    requires scale.Usable() && scale.bands != []
    ensures Evaluate(predictions, truths, scale).Ok?
    ensures var r := Evaluate(predictions, truths, scale).value;
      var pairs := Pairing(predictions, TruthByKey(truths));
      && r.n + |r.unmatched| == |predictions|
      && GradeAll(scale, HumanTotals(pairs)) == Ok(r.trueGrades)
      && GradeAll(scale, SystemTotals(pairs)) == Ok(r.predGrades)
      && r.n == |r.trueGrades| == |r.predGrades|
      && Grades(r.trueGrades, |scale.bands|) && Grades(r.predGrades, |scale.bands|)
      && (r.n == 0 <==> r.qwk == None) && (r.n == 0 <==> r.exact == None)
      && (r.n > 0 ==>
          && r.exact.value <= r.adjacent.value <= 1.0 && 0.0 <= r.exact.value
          && r.qwk == Some(Value(Real(r.trueGrades), Real(r.predGrades)))
          && -1.0 <= r.qwk.value <= 1.0
          && (r.qwk == Some(1.0) <==> r.exact == Some(1.0)))
  {
    hide Value, KappaOf, TruthByKey, Agreeing, Mae, MeanSquare, Confusion, NormalizeAll, GradeAll, Pairing, Unmatched;
    var truth := TruthByKey(truths);
    var pairs := Pairing(predictions, truth);
    PairedOrUnmatched(predictions, truth);
    UsableNeverFails(scale, HumanTotals(pairs));
    UsableNeverFails(scale, SystemTotals(pairs));
    GradesInScale(scale, HumanTotals(pairs));
    GradesInScale(scale, SystemTotals(pairs));
    var r := Evaluate(predictions, truths, scale).value;
    if r.n > 0 {
      RatesAndKappa(r.trueGrades, r.predGrades, |scale.bands|);
    } else {
      NoKappa(r.trueGrades, r.predGrades, |scale.bands|);
    }
  }

  // ----- the report on predictions and truths alone

  ghost predicate HasTruth(truths: seq<Sample>, key: string) {
    exists j :: 0 <= j < |truths| && truths[j].key == key
  }

  // The places of the predictions that have a truth, or that have none, in order.
  ghost predicate PlacesOf(predictions: seq<Sample>, truths: seq<Sample>, matched: bool, at: seq<nat>) {
    && OnlyPlaces(predictions, truths, matched, at)
    && (forall k, l :: 0 <= k < l < |at| ==> at[k] < at[l])
    && EveryPlace(predictions, truths, matched, at)
  }

  ghost predicate OnlyPlaces(predictions: seq<Sample>, truths: seq<Sample>, matched: bool, at: seq<nat>) {
    forall k :: 0 <= k < |at| ==> at[k] < |predictions| && HasTruth(truths, predictions[at[k]].key) == matched
  }

  ghost predicate EveryPlace(predictions: seq<Sample>, truths: seq<Sample>, matched: bool, at: seq<nat>) {
    forall i :: 0 <= i < |predictions| && HasTruth(truths, predictions[i].key) == matched ==> i in at
  }

  // Pair k is the prediction at place at[k] with the truth under its key.
  ghost predicate PairedAt(predictions: seq<Sample>, truth: map<string, Sample>, pairs: seq<(Sample, Sample)>,
                           at: seq<nat>) {
    && |pairs| == |at|
    && forall k :: 0 <= k < |at| ==>
         && at[k] < |predictions| && predictions[at[k]].key in truth
         && pairs[k] == (predictions[at[k]], truth[predictions[at[k]].key])
  }

  ghost predicate KeyedAt(predictions: seq<Sample>, keys: seq<string>, at: seq<nat>) {
    |keys| == |at| && forall k :: 0 <= k < |at| ==> at[k] < |predictions| && keys[k] == predictions[at[k]].key
  }

  lemma {:induction false} PairingAt(predictions: seq<Sample>, truths: seq<Sample>)
    returns (at: seq<nat>, missing: seq<nat>)
    ensures PlacesOf(predictions, truths, true, at) && PlacesOf(predictions, truths, false, missing)
    ensures PairedAt(predictions, TruthByKey(truths), Pairing(predictions, TruthByKey(truths)), at)
    ensures KeyedAt(predictions, Unmatched(predictions, TruthByKey(truths)), missing)
  {
    hide TruthByKey, HasTruth, Pairing, Unmatched, PlacesOf, PairedAt, KeyedAt;
    var truth := TruthByKey(truths);
    if predictions == [] {
      at, missing := [], [];
      NothingPaired(truths);
    } else {
      var n := |predictions| - 1;
      var init, last := predictions[..n], predictions[n];
      at, missing := PairingAt(init, truths);
      LastPairing(predictions, truth);
      KeysOfTruths(truths, last.key);
      OneMorePlace(predictions, truths, true, at);
      OneMorePlace(predictions, truths, false, missing);
      OneMorePair(predictions, truth, Pairing(init, truth), at);
      OneMoreKey(predictions, Unmatched(init, truth), missing);
      if last.key in truth { at := at + [n]; } else { missing := missing + [n]; }
    }
  }

  lemma NothingPaired(truths: seq<Sample>)
    ensures PlacesOf([], truths, true, []) && PlacesOf([], truths, false, [])
    ensures PairedAt([], TruthByKey(truths), Pairing([], TruthByKey(truths)), [])
    ensures KeyedAt([], Unmatched([], TruthByKey(truths)), [])
  {
  }

  lemma LastPairing(predictions: seq<Sample>, truth: map<string, Sample>)
    requires predictions != []
    ensures var n := |predictions| - 1; var init, last := predictions[..n], predictions[n];
      if last.key in truth then
        && Pairing(predictions, truth) == Pairing(init, truth) + [(last, truth[last.key])]
        && Unmatched(predictions, truth) == Unmatched(init, truth)
      else
        && Pairing(predictions, truth) == Pairing(init, truth)
        && Unmatched(predictions, truth) == Unmatched(init, truth) + [last.key]
  {
    var n := |predictions| - 1;
    var one := [predictions[n]];
    assert predictions == predictions[..n] + one && one[1..] == [];
    PairingConcat(predictions[..n], one, truth);
    FirstPairing(one, truth);
    FirstPairing([], truth);
    hide Pairing, Unmatched;
  }

  lemma OneMorePair(predictions: seq<Sample>, truth: map<string, Sample>, pairs: seq<(Sample, Sample)>, at: seq<nat>)
    requires predictions != [] && PairedAt(predictions[..|predictions| - 1], truth, pairs, at)
    ensures var n := |predictions| - 1; var last := predictions[n];
      && PairedAt(predictions, truth, pairs, at)
      && (last.key in truth ==> PairedAt(predictions, truth, pairs + [(last, truth[last.key])], at + [n]))
  {
  }

  lemma OneMoreKey(predictions: seq<Sample>, keys: seq<string>, at: seq<nat>)
    requires predictions != [] && KeyedAt(predictions[..|predictions| - 1], keys, at)
    ensures KeyedAt(predictions, keys, at)
    ensures KeyedAt(predictions, keys + [predictions[|predictions| - 1].key], at + [|predictions| - 1])
  {
  }

  lemma OneMorePlace(predictions: seq<Sample>, truths: seq<Sample>, matched: bool, at: seq<nat>)
    requires predictions != [] && PlacesOf(predictions[..|predictions| - 1], truths, matched, at)
    ensures var n := |predictions| - 1;
      PlacesOf(predictions, truths, matched, if HasTruth(truths, predictions[n].key) == matched then at + [n] else at)
  {
    hide HasTruth;
    OnlyMore(predictions, truths, matched, at);
    EveryMore(predictions, truths, matched, at);
    assert forall k :: 0 <= k < |at| ==> at[k] < |predictions| - 1;
    hide OnlyPlaces, EveryPlace;
  }

  lemma OnlyMore(predictions: seq<Sample>, truths: seq<Sample>, matched: bool, at: seq<nat>)
    requires predictions != [] && OnlyPlaces(predictions[..|predictions| - 1], truths, matched, at)
    ensures OnlyPlaces(predictions, truths, matched, at)
    ensures var n := |predictions| - 1;
      HasTruth(truths, predictions[n].key) == matched ==> OnlyPlaces(predictions, truths, matched, at + [n])
  {
    hide HasTruth;
  }

  lemma EveryMore(predictions: seq<Sample>, truths: seq<Sample>, matched: bool, at: seq<nat>)
    requires predictions != [] && EveryPlace(predictions[..|predictions| - 1], truths, matched, at)
    ensures var n := |predictions| - 1;
      EveryPlace(predictions, truths, matched, if HasTruth(truths, predictions[n].key) == matched then at + [n] else at)
  {
    hide HasTruth;
    var n := |predictions| - 1;
    forall i | 0 <= i < n && HasTruth(truths, predictions[i].key) == matched ensures i in at {
      assert predictions[..n][i] == predictions[i];
    }
  }

  lemma KeysOfTruths(truths: seq<Sample>, key: string)
    ensures key in TruthByKey(truths) <==> HasTruth(truths, key)
  {
  }

  function PairOf(p: Sample, truth: map<string, Sample>): seq<(Sample, Sample)> {
    if p.key in truth then [(p, truth[p.key])] else []
  }

  function KeyUnless(p: Sample, truth: map<string, Sample>): seq<string> {
    if p.key in truth then [] else [p.key]
  }

  lemma FirstPairing(predictions: seq<Sample>, truth: map<string, Sample>)
    ensures predictions == [] ==> Pairing(predictions, truth) == [] && Unmatched(predictions, truth) == []
    ensures predictions != [] ==>
      && Pairing(predictions, truth) == PairOf(predictions[0], truth) + Pairing(predictions[1..], truth)
      && Unmatched(predictions, truth) == KeyUnless(predictions[0], truth) + Unmatched(predictions[1..], truth)
  {
  }

  lemma {:induction false} PairingConcat(a: seq<Sample>, b: seq<Sample>, truth: map<string, Sample>)
    ensures Pairing(a + b, truth) == Pairing(a, truth) + Pairing(b, truth)
    ensures Unmatched(a + b, truth) == Unmatched(a, truth) + Unmatched(b, truth)
  {
    hide Pairing, Unmatched, PairOf, KeyUnless;
    FirstPairing(a, truth);
    if a == [] {
      assert a + b == b;
    } else {
      var ab := a + b;
      FirstPairing(ab, truth);
      assert ab[0] == a[0] && ab[1..] == a[1..] + b;
      PairingConcat(a[1..], b, truth);
    }
  }

  /** What the report says, on its inputs: it is about the predictions that have a truth, in order, and
      lists the keys of the others; each total is normalised and graded, and compared with the last truth
      under its key, normalised and graded; agreement is perfect exactly when these grades are equal. */
  lemma ReportCompares(predictions: seq<Sample>, truths: seq<Sample>, scale: Scale)
    returns (at: seq<nat>, missing: seq<nat>)
    requires scale.Usable() && scale.bands != [] && Evaluate(predictions, truths, scale).Ok?
    ensures PlacesOf(predictions, truths, true, at) && PlacesOf(predictions, truths, false, missing)
    ensures var r := Evaluate(predictions, truths, scale).value;
      && r.n == |at| == |r.trueTotals| == |r.predTotals| == |r.trueGrades| == |r.predGrades|
      && |r.unmatched| == |missing|
      && (forall k :: 0 <= k < |missing| ==> r.unmatched[k] == predictions[missing[k]].key)
      && (forall k :: 0 <= k < r.n ==>
            && scale.Normalize(predictions[at[k]].total) == Ok(r.predTotals[k])
            && scale.Ordinal(predictions[at[k]].total) == Ok(r.predGrades[k]))
      && (forall k, j: nat :: 0 <= k < r.n && LastOfKey(truths, j) && truths[j].key == predictions[at[k]].key ==>
            && scale.Normalize(truths[j].total) == Ok(r.trueTotals[k])
            && scale.Ordinal(truths[j].total) == Ok(r.trueGrades[k]))
      && (r.n > 0 ==> (r.exact == Some(1.0) <==> SameGrades(predictions, truths, scale, at)))
  {
    hide Value, KappaOf, TruthByKey, Agreeing, Mae, MeanSquare, Confusion, NormalizeAll, GradeAll, Pairing, Unmatched;
    hide Scale.Normalize, Scale.Ordinal, HasTruth;
    at, missing := PairingAt(predictions, truths);
    OnePairing(predictions, truths, scale);
    var r := Evaluate(predictions, truths, scale).value;
    var pairs := Pairing(predictions, TruthByKey(truths));
    forall k, j: nat | 0 <= k < r.n && LastOfKey(truths, j) && truths[j].key == predictions[at[k]].key
      ensures pairs[k].1 == truths[j] {
      var last := LastTruth(truths, j);
    }
    forall k | 0 <= k < r.n ensures exists j: nat :: LastOfKey(truths, j) && truths[j].key == predictions[at[k]].key {
      var i := TruthOf(truths, predictions[at[k]].key);
      var last := LastTruth(truths, i);
    }
    if r.n > 0 { PerfectGrades(r.trueGrades, r.predGrades, |scale.bands|); }
  }

  lemma TruthOf(truths: seq<Sample>, key: string) returns (j: nat)
    requires HasTruth(truths, key)
    ensures j < |truths| && truths[j].key == key
  {
    j :| 0 <= j < |truths| && truths[j].key == key;
  }

  lemma PerfectGrades(g: seq<nat>, h: seq<nat>, size: nat)
    requires |g| == |h| > 0
    ensures Share(Agreeing(g, h, |g|, 0), |g|) == Some(1.0) <==> forall k :: 0 <= k < |g| ==> g[k] == h[k]
  {
    AgreeingEverywhere(g, h, |g|);
    ShareFacts(Agreeing(g, h, |g|, 0), |g|);
    assert g[..|g|] == g && h[..|g|] == h;
  }

  // Every matched prediction has the grade of the last truth under its key.
  ghost predicate SameGrades(predictions: seq<Sample>, truths: seq<Sample>, scale: Scale, at: seq<nat>)
    requires forall k :: 0 <= k < |at| ==> at[k] < |predictions|
  {
    forall k, j: nat :: 0 <= k < |at| && LastOfKey(truths, j) && truths[j].key == predictions[at[k]].key ==>
      scale.Ordinal(predictions[at[k]].total) == scale.Ordinal(truths[j].total)
  }

  ghost predicate IsMean(mean: Option<real>, sum: real, n: nat) {
    mean.Some? && mean.value * n as real == sum
  }

  ghost function Gap(a: real, b: real): real { if a >= b then a - b else b - a }

  // Places where the two grades are at most `reach` apart.
  ghost function Close(g: seq<int>, h: seq<int>, reach: int): set<int>
    requires |g| == |h|
  {
    set k | 0 <= k < |g| && -reach <= g[k] - h[k] <= reach
  }

  lemma {:induction false} AgreeingIsClose(g: seq<int>, h: seq<int>, reach: nat)
    requires |g| == |h|
    ensures Agreeing(g, h, |g|, reach) == |Close(g, h, reach)|
  {
    if g == [] {
      assert Close(g, h, reach) == {};
    } else {
      var n := |g| - 1;
      AgreeingIsClose(g[..n], h[..n], reach);
      AgreeingPrefix(g, h, n, reach);
      assert Close(g, h, reach) == Close(g[..n], h[..n], reach)
        + (if -(reach as int) <= g[n] - h[n] <= reach then {n} else {});
    }
  }

  lemma {:induction false} AgreeingPrefix(g: seq<int>, h: seq<int>, k: nat, reach: nat)
    requires k <= |g| && k <= |h|
    ensures Agreeing(g[..k], h[..k], k, reach) == Agreeing(g, h, k, reach)
    decreases k
  {
    if k > 0 {
      AgreeingPrefix(g, h, k - 1, reach);
      AgreeingPrefix(g[..k], h[..k], k - 1, reach);
      assert g[..k][..k - 1] == g[..k - 1] && h[..k][..k - 1] == h[..k - 1];
    }
  }

  /** The rates and the mean absolute and square errors of the report, as counts and sums over its totals and
      grades. */
  lemma ReportCounts(predictions: seq<Sample>, truths: seq<Sample>, scale: Scale, gaps: seq<real>, squares: seq<real>)
    requires scale.Usable() && scale.bands != [] && Evaluate(predictions, truths, scale).Ok?
    requires var r := Evaluate(predictions, truths, scale).value;
      && r.n == |r.trueTotals| == |r.predTotals| == |gaps| == |squares| && r.n > 0
      && (forall k :: 0 <= k < r.n ==> gaps[k] == Gap(r.trueTotals[k], r.predTotals[k]))
      && (forall k :: 0 <= k < r.n ==> squares[k] == gaps[k] * gaps[k])
    ensures var r := Evaluate(predictions, truths, scale).value;
      && |r.trueGrades| == |r.predGrades| == r.n
      && IsMean(r.exact, |Close(r.trueGrades, r.predGrades, 0)| as real, r.n)
      && IsMean(r.adjacent, |Close(r.trueGrades, r.predGrades, 1)| as real, r.n)
      && IsMean(r.mae, Sum(gaps), r.n) && IsMean(r.meanSquare, Sum(squares), r.n)
  {
    hide Value, KappaOf, TruthByKey, Agreeing, Mae, MeanSquare, Confusion, NormalizeAll, GradeAll, Pairing, Unmatched;
    hide Close, Sum, Share, IsMean;
    OnePairing(predictions, truths, scale);
    var r := Evaluate(predictions, truths, scale).value;
    AgreeingIsClose(r.trueGrades, r.predGrades, 0);
    AgreeingIsClose(r.trueGrades, r.predGrades, 1);
    ShareTimes(|Close(r.trueGrades, r.predGrades, 0)|, r.n);
    ShareTimes(|Close(r.trueGrades, r.predGrades, 1)|, r.n);
    MeansTimes(r.trueTotals, r.predTotals, gaps, squares);
  }

  lemma ShareTimes(count: nat, n: nat)
    requires n > 0
    ensures IsMean(Share(count, n), count as real, n)
  {
  }

  lemma MeansTimes(x: seq<real>, y: seq<real>, gaps: seq<real>, squares: seq<real>)
    requires |x| == |y| == |gaps| == |squares| > 0
    requires forall k :: 0 <= k < |x| ==> gaps[k] == Gap(x[k], y[k]) && squares[k] == gaps[k] * gaps[k]
    ensures IsMean(Some(Mae(x, y)), Sum(gaps), |x|) && IsMean(Some(MeanSquare(x, y)), Sum(squares), |x|)
  {
    hide Sum, Paired;
    assert AbsErrors(x, y) == gaps;
    PairedIsSum(x, y, gaps, squares);
  }

  lemma {:induction false} PairedIsSum(x: seq<real>, y: seq<real>, gaps: seq<real>, squares: seq<real>)
    requires |x| == |y| == |gaps| == |squares|
    requires forall k :: 0 <= k < |x| ==> gaps[k] == Gap(x[k], y[k]) && squares[k] == gaps[k] * gaps[k]
    ensures Paired(x, y) == Sum(squares)
  {
    if x != [] {
      var n := |x| - 1;
      PairedIsSum(x[..n], y[..n], gaps[..n], squares[..n]);
    }
  }

  /** The confusion matrix of the report is of the same pairing: its cells are the counts kappa
      weighs, they add up to n, their marginals are the grade histograms, and the diagonal and the
      three middle diagonals over n are the two agreement rates. */
  lemma OneMatrix(predictions: seq<Sample>, truths: seq<Sample>, scale: Scale, v: int)
    requires scale.Usable() && scale.bands != [] && Evaluate(predictions, truths, scale).Ok?
    ensures var r := Evaluate(predictions, truths, scale).value;
      var g, h, n, size := r.trueGrades, r.predGrades, r.n, |scale.bands|;
      && |r.confusion| == size && |g| == |h| == n
      && Indexable(g, 0, size) && Indexable(h, 0, size)
      && (forall i, j :: 0 <= i < size && 0 <= j < size ==>
            |r.confusion[i]| == size && r.confusion[i][j] == Pairs(Indexed(g, 0, size), Indexed(h, 0, size), n, i, j)
              == Pairs(g, h, n, i, j))
      && Everything(g, h, n, size, size) == n
      && RowSum(g, h, n, v, 0, size) == Hist(g, n, v) && ColumnSum(g, h, n, v, size) == Hist(h, n, v)
      && r.exact == Share(NearDiagonal(g, h, n, 0, size), n)
      && r.adjacent == Share(NearDiagonal(g, h, n, 1, size), n)
  {
    hide Value, KappaOf, TruthByKey, Agreeing, Mae, MeanSquare, NormalizeAll, GradeAll, Pairing, Unmatched, RowSum,
      ColumnSum;
    OnePairing(predictions, truths, scale);
    var r := Evaluate(predictions, truths, scale).value;
    var g, h, size := r.trueGrades, r.predGrades, |scale.bands|;
    InRangeIndexes(g, 0, size);
    InRangeIndexes(h, 0, size);
    assert Indexed(g, 0, size) == g && Indexed(h, 0, size) == h;
    ConfusionAccounts(g, h, r.n, size, 0, v);
    ConfusionAccounts(g, h, r.n, size, 1, v);
  }

  /** The report's mae is at most its rmse, and both are about the normalised totals of the pairing. */
  lemma OneError(predictions: seq<Sample>, truths: seq<Sample>, scale: Scale, rmse: real)
    requires Evaluate(predictions, truths, scale).Ok? && Evaluate(predictions, truths, scale).value.n > 0
    requires rmse >= 0.0 && Evaluate(predictions, truths, scale).value.meanSquare == Some(Square(rmse))
    ensures var r := Evaluate(predictions, truths, scale).value;
      var pairs := Pairing(predictions, TruthByKey(truths));
      && NormalizeAll(scale, HumanTotals(pairs)) == Ok(r.trueTotals)
      && NormalizeAll(scale, SystemTotals(pairs)) == Ok(r.predTotals)
      && r.mae.Some? && 0.0 <= r.mae.value <= rmse
  {
    hide KappaOf, TruthByKey, Agreeing, Mae, MeanSquare, Confusion, NormalizeAll, GradeAll, Pairing, Unmatched, Square;
    var r := Evaluate(predictions, truths, scale).value;
    MaeAtMostRmse(r.trueTotals, r.predTotals, rmse);
  }

  lemma NoKappa(g: seq<nat>, h: seq<nat>, size: int)
    requires |g| == |h| == 0
    ensures KappaOf(g, h, Some(0), Some(size - 1)) == Ok(None)
  {
  }

  lemma RatesAndKappa(g: seq<nat>, h: seq<nat>, size: nat)
    requires |g| == |h| > 0 && size > 0 && Grades(g, size) && Grades(h, size)
    ensures var n := |g|; var exact, adjacent := Share(Agreeing(g, h, n, 0), n), Share(Agreeing(g, h, n, 1), n);
      && 0.0 <= exact.value <= adjacent.value <= 1.0
      && KappaOf(g, h, Some(0), Some(size - 1)) == Ok(Some(Value(Real(g), Real(h))))
      && -1.0 <= Value(Real(g), Real(h)) <= 1.0
      && (Value(Real(g), Real(h)) == 1.0 <==> exact == Some(1.0))
  {
    hide Value;
    var n := |g|;
    AgreeingEverywhere(g, h, n);
    ShareFacts(Agreeing(g, h, n, 0), n);
    ShareFacts(Agreeing(g, h, n, 1), n);
    SharesOrdered(Agreeing(g, h, n, 0), Agreeing(g, h, n, 1), n);
    RangeDropsOut(g, h, Some(0), Some(size - 1));
    Range(Real(g), Real(h));
    PerfectInRange(g, h, Some(0), Some(size - 1));
    assert g[..n] == g && h[..n] == h;
  }

  lemma SharesOrdered(a: nat, b: nat, n: nat)
    requires a <= b && n > 0
    ensures Share(a, n).value <= Share(b, n).value
  {
    Divided(a as real, b as real, n as real);
  }
}
