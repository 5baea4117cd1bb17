/** `EvaluationGradeScale` of backend/app/eval/metrics.py, in exact arithmetic. */
module GradeScale {
  import opened Wrappers

  datatype Band = Band(title: string, minimum: real)

  datatype ScaleError = UnsupportedRounding | ZeroTotalScore

  // 10 ** -digits
  function Quantum(digits: int): (q: real)
    ensures q > 0.0
    decreases if digits < 0 then -digits else digits
  {
    if digits == 0 then 1.0
    else if digits > 0 then Quantum(digits - 1) / 10.0
    else Quantum(digits + 1) * 10.0
  }

  // Nearest integer, ties away from zero (decimal's ROUND_HALF_UP).
  function HalfUp(t: real): int {
    if t >= 0.0 then (t + 0.5).Floor else -((-t + 0.5).Floor)
  }

  // `value.quantize(quantum, rounding=ROUND_HALF_UP)`
  function Quantize(v: real, q: real): real
    requires q > 0.0
  {
    HalfUp(v / q) as real * q
  }

  datatype Scale = Scale(totalScore: real, percentage: bool, bands: seq<Band>,
                         roundingDigits: Option<int>, halfUp: bool)
  {
    function Normalize(v: real): Result<real, ScaleError> {
      match roundingDigits
      case None => Ok(v)
      case Some(d) => if halfUp then Ok(Quantize(v, Quantum(d))) else Err(UnsupportedRounding)
    }

    // Index of the first band that `c` reaches, or the number of bands.
    function FirstReached(c: real, from: nat): (i: nat)
      requires from <= |bands|
      ensures from <= i <= |bands|
      decreases |bands| - from
    {
      if from == |bands| || c >= bands[from].minimum then from else FirstReached(c, from + 1)
    }

    function Ordinal(v: real): Result<nat, ScaleError> {
      match Normalize(v)
      case Err(e) => Err(e)
      case Ok(total) =>
        if percentage && totalScore == 0.0 then Err(ZeroTotalScore)
        else
          var c := if percentage then total / totalScore * 100.0 else total;
          var i := FirstReached(c, 0);
          if i < |bands| then Ok(|bands| - i - 1) else Ok(0)
    }

    ghost predicate Usable() {
      (roundingDigits.Some? ==> halfUp) && (percentage ==> totalScore > 0.0)
    }
  }

  /** Rounding goes to the nearest integer, and from halfway away from zero. */
  lemma HalfUpNearest(t: real)
    ensures -0.5 <= HalfUp(t) as real - t <= 0.5
    ensures HalfUp(t) as real - t == 0.5 ==> t >= 0.0
    ensures HalfUp(t) as real - t == -0.5 ==> t <= 0.0
  {
  }

  lemma HalfUpMonotone(s: real, t: real)
    requires s <= t
    ensures HalfUp(s) <= HalfUp(t)
  {
    if s >= 0.0 {
      assert (s + 0.5).Floor <= (t + 0.5).Floor;
    } else if t >= 0.0 {
      assert (-s + 0.5).Floor >= 0 && (t + 0.5).Floor >= 0;
    } else {
      assert (-t + 0.5).Floor <= (-s + 0.5).Floor;
    }
  }

  lemma HalfUpFixesIntegers(n: int)
    ensures HalfUp(n as real) == n
  {
    assert (n as real + 0.5).Floor == n;
    assert (-(n as real)) == (-n) as real && ((-n) as real + 0.5).Floor == -n;
  }

  lemma Divided(v: real, w: real, q: real)
    requires q > 0.0 && v <= w
    ensures v / q <= w / q
  {
    var x, y := v / q, w / q;
    assert x * q == v && y * q == w;
    if x > y { Larger(x, y, q); }
  }

  lemma Larger(x: real, y: real, q: real)
    requires x > y && q > 0.0
    ensures x * q > y * q
  {
    assert (x - y) * q > 0.0;
  }

  lemma QuantizeMonotone(v: real, w: real, q: real)
    requires q > 0.0 && v <= w
    ensures Quantize(v, q) <= Quantize(w, q)
  {
    Divided(v, w, q);
    HalfUpMonotone(v / q, w / q);
    var m, n := HalfUp(v / q), HalfUp(w / q);
    if m < n { Larger(n as real, m as real, q); }
  }

  lemma QuantizeIdempotent(v: real, q: real)
    requires q > 0.0
    ensures Quantize(Quantize(v, q), q) == Quantize(v, q)
  {
    var m := HalfUp(v / q);
    var w := m as real * q;
    Undone(m as real, q, w);
    HalfUpFixesIntegers(m);
    var t := w / q;
    assert t == m as real && HalfUp(t) == m;
    assert Quantize(v, q) == w;
    assert Quantize(w, q) == HalfUp(t) as real * q;
  }

  lemma Undone(x: real, q: real, w: real)
    requires q > 0.0 && w == x * q
    ensures w / q == x
  {
    var y := w / q;
    assert y * q == w;
    if x > y { Larger(x, y, q); }
    if x < y { Larger(y, x, q); }
  }

  /** The quantum is the power of ten: 1 for no digits, and a tenth for every further digit. */
  lemma QuantumIsPowerOfTen(digits: int)
    ensures Quantum(0) == 1.0 && Quantum(digits) == 10.0 * Quantum(digits + 1)
  {
  }

  // w is m times the quantum, no other multiple is nearer to v, and if one is as near, w is the one away from zero.
  ghost predicate NearestMultiple(v: real, q: real, m: int, w: real) {
    && w == m as real * q
    && -q <= 2.0 * (w - v) <= q
    && (2.0 * (w - v) == q ==> v >= 0.0) && (2.0 * (w - v) == -q ==> v <= 0.0)
  }

  /** Normalising leaves a total alone where no digits are given, fails for another rounding mode, and else
      gives the nearest multiple of the quantum. */
  lemma NormalizeMeaning(s: Scale, v: real) returns (m: int)
    ensures s.roundingDigits.None? ==> s.Normalize(v) == Ok(v)
    ensures s.roundingDigits.Some? && !s.halfUp ==> s.Normalize(v) == Err(UnsupportedRounding)
    ensures s.roundingDigits.Some? && s.halfUp ==>
      s.Normalize(v).Ok? && NearestMultiple(v, Quantum(s.roundingDigits.value), m, s.Normalize(v).value)
  {
    hide Quantum, Quantize, NearestMultiple;
    m := 0;
    if s.roundingDigits.Some? { m := QuantizeNearest(v, Quantum(s.roundingDigits.value)); }
  }

  lemma QuantizeNearest(v: real, q: real) returns (m: int)
    requires q > 0.0
    ensures NearestMultiple(v, q, m, Quantize(v, q))
  {
    var t := v / q;
    m := HalfUp(t);
    HalfUpNearest(t);
    assert t * q == v;
    var d, e := m as real - t, m as real * q - v;
    assert e == d * q by { assert d * q == m as real * q - t * q; }
    hide HalfUp;
    ScaleBack(d, t, q, e, v);
  }

  lemma ScaleBack(d: real, t: real, q: real, e: real, v: real)
    requires q > 0.0 && -0.5 <= d <= 0.5 && t * q == v && e == d * q
    ensures -q <= 2.0 * e <= q
    ensures (2.0 * e == q ==> d == 0.5) && (2.0 * e == -q ==> d == -0.5)
    ensures (t >= 0.0 ==> v >= 0.0) && (t <= 0.0 ==> v <= 0.0)
  {
    if d > -0.5 { Larger(d, -0.5, q); } else { assert d == -0.5 && e == -0.5 * q; }
    if d < 0.5 { Larger(0.5, d, q); } else { assert d == 0.5 && e == 0.5 * q; }
    if t > 0.0 { Larger(t, 0.0, q); } else if t < 0.0 { Larger(0.0, t, q); } else { assert v == 0.0; }
  }

  /** Normalising is monotone and idempotent. */
  lemma NormalizeLaws(s: Scale, v: real, w: real)
    requires s.Usable() && v <= w
    ensures s.Normalize(v).Ok? && s.Normalize(w).Ok? && s.Normalize(v).value <= s.Normalize(w).value
    ensures s.Normalize(s.Normalize(v).value) == s.Normalize(v)
  {
    match s.roundingDigits
    case None =>
    case Some(d) =>
      QuantizeMonotone(v, w, Quantum(d));
      QuantizeIdempotent(v, Quantum(d));
  }

  lemma {:induction false} FirstReachedAntitone(s: Scale, c: real, d: real, from: nat)
    requires from <= |s.bands| && c <= d
    ensures s.FirstReached(d, from) <= s.FirstReached(c, from)
    decreases |s.bands| - from
  {
    if from < |s.bands| && c < s.bands[from].minimum { FirstReachedAntitone(s, c, d, from + 1); }
  }

  lemma {:induction false} FirstReachedIsFirst(s: Scale, c: real, from: nat)
    requires from <= |s.bands|
    ensures var i := s.FirstReached(c, from);
      && (i < |s.bands| ==> c >= s.bands[i].minimum)
      && forall j :: from <= j < i ==> c < s.bands[j].minimum
    decreases |s.bands| - from
  {
    if from < |s.bands| && c < s.bands[from].minimum { FirstReachedIsFirst(s, c, from + 1); }
  }

  // Whether a normalised total reaches a band minimum: as it is, or as a percentage of the total score.
  ghost predicate Reaches(s: Scale, total: real, minimum: real) {
    if s.percentage then total * 100.0 >= minimum * s.totalScore else total >= minimum
  }

  /** A grade says which band the normalised total reached, counted from the worst, and that no better
      one was. */
  lemma OrdinalMeaning(s: Scale, v: real)
    requires s.Usable() && s.bands != []
    ensures s.Normalize(v).Ok? && s.Ordinal(v).Ok?
    ensures var total, n, g := s.Normalize(v).value, |s.bands|, s.Ordinal(v).value;
      && g < n
      && (forall j :: 0 <= j < n - 1 - g ==> !Reaches(s, total, s.bands[j].minimum))
      && (Reaches(s, total, s.bands[n - 1 - g].minimum)
          || (g == 0 && forall j :: 0 <= j < n ==> !Reaches(s, total, s.bands[j].minimum)))
  {
    hide Reaches;
    NormalizeLaws(s, v, v);
    var total := s.Normalize(v).value;
    var c := if s.percentage then total / s.totalScore * 100.0 else total;
    FirstReachedIsFirst(s, c, 0);
    forall j | 0 <= j < |s.bands| ensures Reaches(s, total, s.bands[j].minimum) <==> c >= s.bands[j].minimum {
      ReachesIff(s, total, s.bands[j].minimum, c);
    }
  }

  lemma ReachesIff(s: Scale, total: real, minimum: real, c: real)
    requires s.Usable() && c == if s.percentage then total / s.totalScore * 100.0 else total
    ensures Reaches(s, total, minimum) <==> c >= minimum
  {
    if s.percentage {
      var x := total / s.totalScore;
      assert c * s.totalScore == total * 100.0 by {
        assert x * s.totalScore == total;
        assert c * s.totalScore == (x * 100.0) * s.totalScore == (x * s.totalScore) * 100.0;
      }
      if c > minimum { Larger(c, minimum, s.totalScore); }
      if minimum > c { Larger(minimum, c, s.totalScore); }
    }
  }

  /** A higher total never gets a lower grade, whatever the order of the bands; grades are in
      range; and grading a normalised total is grading the total. */
  lemma OrdinalLaws(s: Scale, v: real, w: real)
    requires s.Usable() && v <= w
    ensures s.Ordinal(v).Ok? && s.Ordinal(w).Ok? && s.Ordinal(v).value <= s.Ordinal(w).value
    ensures s.bands != [] ==> s.Ordinal(w).value < |s.bands|
    ensures s.Ordinal(s.Normalize(v).value) == s.Ordinal(v)
  {
    NormalizeLaws(s, v, w);
    var c, d := s.Normalize(v).value, s.Normalize(w).value;
    if s.percentage {
      Divided(c, d, s.totalScore);
      FirstReachedAntitone(s, c / s.totalScore * 100.0, d / s.totalScore * 100.0, 0);
    } else {
      FirstReachedAntitone(s, c, d, 0);
    }
  }
}
