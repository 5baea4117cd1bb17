/** Largest-remainder apportionment, as `stratified_sample` of backend/app/eval/asap.py uses it:
    floor every quota, then give the missing seats to the largest fractions.  Exact arithmetic. */
module Apportionment {
  import opened Ordering
  import opened Sums

  // `size * len(strata[key]) / total`
  function Quota(size: int, stratum: int, total: real): real
    requires total > 0.0
  {
    (size * stratum) as real / total
  }

  function Quotas(sizes: seq<nat>, size: int): (q: seq<real>)
    requires SumInt(sizes) > 0
    ensures |q| == |sizes|
  {
    seq(|sizes|, i requires 0 <= i < |sizes| => Quota(size, sizes[i], SumInt(sizes) as real))
  }

  function Floors(q: seq<real>): (b: seq<int>)
    ensures |b| == |q|
  {
    seq(|q|, i requires 0 <= i < |q| => q[i].Floor)
  }

  function Fraction(q: real): real { q - q.Floor as real }

  // The sort key `(counts[item] - quotas[item], item)`, strata numbered in key order.
  function OwedFirst(q: seq<real>): (int, int) -> bool {
    (i: int, j: int) =>
      var fi := if 0 <= i < |q| then -Fraction(q[i]) else 1.0;
      var fj := if 0 <= j < |q| then -Fraction(q[j]) else 1.0;
      fi < fj || (fi == fj && i <= j)
  }

  function Indices(n: nat): (s: seq<int>)
    ensures |s| == n && forall i :: 0 <= i < n ==> s[i] == i
  {
    seq(n, i => i)
  }

  // Python's `s[:r]`.
  function Slice<T>(s: seq<T>, r: int): seq<T> {
    if r >= |s| then s
    else if r >= 0 then s[..r]
    else if |s| + r >= 0 then s[..|s| + r]
    else []
  }

  function Winners(q: seq<real>, size: int): seq<int> {
    Slice(Sort(Indices(|q|), OwedFirst(q)), size - SumInt(Floors(q)))
  }

  function Allocate(q: seq<real>, size: int): (a: seq<int>)
    ensures |a| == |q|
  {
    seq(|q|, i requires 0 <= i < |q| => q[i].Floor + (if i in Winners(q, size) then 1 else 0))
  }

  function Allocation(sizes: seq<nat>, size: int): (a: seq<int>)
    requires SumInt(sizes) > 0
    ensures |a| == |sizes|
  {
    Allocate(Quotas(sizes, size), size)
  }

  // ----- the quotas add up

  lemma {:induction false} QuotasAddUp(sizes: seq<nat>, q: seq<real>, size: int, total: real)
    requires total > 0.0 && |q| == |sizes|
    requires forall i :: 0 <= i < |q| ==> q[i] == Quota(size, sizes[i], total)
    ensures Sum(q) * total == (size * SumInt(sizes)) as real
  {
    hide Quota;
    if q == [] {
      assert 0.0 * total == 0.0;
    } else {
      var n := |q| - 1;
      QuotasAddUp(sizes[..n], q[..n], size, total);
      QuotaStep(Sum(q[..n]), q[n], total, size, SumInt(sizes[..n]), sizes[n], Sum(q), SumInt(sizes));
    }
  }

  lemma QuotaStep(s: real, q: real, t: real, size: int, a: int, c: int, s': real, a': int)
    requires t > 0.0 && s * t == (size * a) as real && q == Quota(size, c, t)
    requires s' == s + q && a' == a + c
    ensures s' * t == (size * a') as real
  {
    assert q * t == (size * c) as real;
    assert size * a' == size * a + size * c;
    assert s' * t == s * t + q * t;
  }

  lemma QuotasSumToSize(sizes: seq<nat>, size: int)
    requires SumInt(sizes) > 0
    ensures Sum(Quotas(sizes, size)) == size as real
  {
    var total := SumInt(sizes);
    var q := Quotas(sizes, size);
    QuotasAddUp(sizes, q, size, total as real);
    Cancel(Sum(q), size, total);
  }

  lemma Cancel(s: real, size: int, total: int)
    requires total > 0 && s * total as real == (size * total) as real
    ensures s == size as real
  {
    assert (size * total) as real == size as real * total as real;
    if s < size as real { Strict(s, size as real, total as real); }
    if s > size as real { Strict(size as real, s, total as real); }
  }

  lemma Strict(a: real, b: real, c: real)
    requires a < b && c > 0.0
    ensures a * c < b * c
  {
    assert (b - a) * c > 0.0;
  }

  // ----- the winners

  // What the proofs need to know of the seats given on top of the floors.
  ghost predicate Seats(q: seq<real>, y: seq<int>, r: int, cut: real) {
    && |y| == |q|
    && SumInt(y) == r
    && 0.0 <= cut <= 1.0
    && forall i :: 0 <= i < |q| ==>
         || (y[i] == 1 && Fraction(q[i]) >= cut)
         || (y[i] == 0 && Fraction(q[i]) <= cut)
  }

  function Membership(n: nat, s: seq<int>): (y: seq<int>)
    ensures |y| == n
  {
    seq(n, i requires 0 <= i < n => if i in s then 1 else 0)
  }

  ghost function Below(s: seq<int>, n: nat): nat {
    if s == [] then 0 else Below(s[..|s| - 1], n) + (if 0 <= s[|s| - 1] < n then 1 else 0)
  }

  lemma {:induction false} BelowStep(s: seq<int>, n: nat)
    requires Distinct(s)
    ensures Below(s, n + 1) == Below(s, n) + (if n in s then 1 else 0)
  {
    if s != [] {
      var init := s[..|s| - 1];
      assert s == init + [s[|s| - 1]];
      BelowStep(init, n);
      if s[|s| - 1] == n { assert n !in init; }
    }
  }

  lemma {:induction false} BelowZero(s: seq<int>)
    ensures Below(s, 0) == 0
  {
    if s != [] { BelowZero(s[..|s| - 1]); }
  }

  lemma {:induction false} BelowAll(s: seq<int>, n: nat)
    requires forall i :: 0 <= i < |s| ==> 0 <= s[i] < n
    ensures Below(s, n) == |s|
  {
    if s != [] { BelowAll(s[..|s| - 1], n); }
  }

  lemma {:induction false} MembershipCounts(n: nat, s: seq<int>)
    requires Distinct(s)
    ensures SumInt(Membership(n, s)) == Below(s, n)
  {
    if n == 0 {
      BelowZero(s);
    } else {
      MembershipCounts(n - 1, s);
      BelowStep(s, n - 1);
      assert Membership(n, s)[..n - 1] == Membership(n - 1, s);
    }
  }

  lemma OwedOrder(q: seq<real>)
    ensures TotalPreorder(OwedFirst(q))
  {
  }

  lemma OrderFacts(q: seq<real>, order: seq<int>)
    requires order == Sort(Indices(|q|), OwedFirst(q))
    ensures |order| == |q| && Distinct(order)
    ensures forall k :: 0 <= k < |order| ==> 0 <= order[k] < |q|
    ensures forall i :: 0 <= i < |q| ==> i in order
    ensures forall j, k :: 0 <= j < k < |order| ==> Fraction(q[order[j]]) >= Fraction(q[order[k]])
  {
    hide Fraction, Sort;
    var all := Indices(|q|);
    OwedOrder(q);
    SortSorts(all, OwedFirst(q));
    SortKeeps(all, OwedFirst(q));
    forall k | 0 <= k < |order| ensures order[k] in all { assert order[k] in order; }
    forall i | 0 <= i < |q| ensures i in order { assert all[i] in all; }
    forall j, k | 0 <= j < k < |order| ensures Fraction(q[order[j]]) >= Fraction(q[order[k]]) {
      assert OwedFirst(q)(order[j], order[k]);
    }
  }

  lemma WinnersAreSeats(q: seq<real>, order: seq<int>, r: nat) returns (cut: real)
    requires order == Sort(Indices(|q|), OwedFirst(q)) && r <= |q|
    ensures Seats(q, Membership(|q|, order[..r]), r, cut)
  {
    hide Sort, Fraction;
    OrderFacts(q, order);
    FractionRange(q);
    MembershipCounts(|q|, order[..r]);
    BelowAll(order[..r], |q|);
    cut := if r > 0 then Fraction(q[order[r - 1]]) else 1.0;
    forall i | 0 <= i < |q|
      ensures i in order[..r] ==> Fraction(q[i]) >= cut
      ensures i !in order[..r] ==> Fraction(q[i]) <= cut {
      SideOfCut(q, order, r, i);
    }
  }

  lemma FractionRange(q: seq<real>)
    ensures forall i :: 0 <= i < |q| ==> 0.0 <= Fraction(q[i]) < 1.0
  {
  }

  lemma SideOfCut(q: seq<real>, order: seq<int>, r: nat, i: nat)
    requires |order| == |q| && r <= |q| && i < |q| && i in order
    requires forall k :: 0 <= k < |order| ==> 0 <= order[k] < |q|
    requires forall j, k :: 0 <= j < k < |order| ==> Fraction(q[order[j]]) >= Fraction(q[order[k]])
    ensures r > 0 && i in order[..r] ==> Fraction(q[i]) >= Fraction(q[order[r - 1]])
    ensures r > 0 && i !in order[..r] ==> Fraction(q[i]) <= Fraction(q[order[r - 1]])
  {
    hide Fraction;
    var k :| 0 <= k < |order| && order[k] == i;
    if r > 0 {
      if i in order[..r] {
        var j :| 0 <= j < r && order[..r][j] == i;
        assert order[j] == i && (j == r - 1 || j < r - 1);
      } else {
        assert forall t :: 0 <= t < r ==> order[..r][t] == order[t];
      }
    }
  }

  // ----- how many seats are missing

  function Fractions(q: seq<real>): (f: seq<real>)
    ensures |f| == |q|
  {
    seq(|q|, i requires 0 <= i < |q| => Fraction(q[i]))
  }

  lemma {:induction false} FractionsAreMissing(q: seq<real>)
    ensures Sum(Fractions(q)) == Sum(q) - SumInt(Floors(q)) as real
  {
    if q != [] {
      var n := |q| - 1;
      FractionsAreMissing(q[..n]);
      assert Fractions(q)[..n] == Fractions(q[..n]) && Floors(q)[..n] == Floors(q[..n]);
    }
  }

  lemma {:induction false} SumBounded(f: seq<real>, y: seq<int>)
    requires |f| == |y| && forall i :: 0 <= i < |f| ==> f[i] <= y[i] as real
    ensures Sum(f) <= SumInt(y) as real
  {
    if f != [] { SumBounded(f[..|f| - 1], y[..|y| - 1]); }
  }

  lemma {:induction false} SumNonNegative(f: seq<real>)
    requires forall i :: 0 <= i < |f| ==> f[i] >= 0.0
    ensures Sum(f) >= 0.0
  {
    if f != [] { SumNonNegative(f[..|f| - 1]); }
  }

  lemma {:induction false} OnesSum(n: nat)
    ensures SumInt(seq(n, _ => 1)) == n
  {
    if n > 0 {
      OnesSum(n - 1);
      assert seq(n, _ => 1)[..n - 1] == seq(n - 1, _ => 1);
    }
  }

  // Between none and all of the strata are owed a seat.
  lemma MissingSeats(q: seq<real>, size: int)
    requires Sum(q) == size as real
    ensures 0 <= size - SumInt(Floors(q)) <= |q|
  {
    FractionsAreMissing(q);
    SumNonNegative(Fractions(q));
    SumBounded(Fractions(q), seq(|q|, _ => 1));
    OnesSum(|q|);
  }

  // A stratum with an integral quota is never owed a seat.
  lemma WinnersAreOwed(q: seq<real>, y: seq<int>, r: int, cut: real, i: nat)
    requires Seats(q, y, r, cut) && Sum(Fractions(q)) == r as real
    requires i < |q| && y[i] == 1
    ensures Fraction(q[i]) > 0.0
  {
    if Fraction(q[i]) <= 0.0 {
      var without := y[i := 0];
      SumChanged(y, i, 0);
      SumBounded(Fractions(q), without);
      assert false;
    }
  }

  lemma AllocationIsSeated(sizes: seq<nat>, size: int) returns (y: seq<int>, cut: real)
    requires SumInt(sizes) > 0
    ensures var q := Quotas(sizes, size); var r := size - SumInt(Floors(q));
      && Sum(q) == size as real && Sum(Fractions(q)) == r as real
      && Seats(q, y, r, cut)
      && forall i :: 0 <= i < |q| ==> Allocation(sizes, size)[i] == q[i].Floor + y[i]
  {
    var q := Quotas(sizes, size);
    var order := Sort(Indices(|q|), OwedFirst(q));
    var r := size - SumInt(Floors(q));
    QuotasSumToSize(sizes, size);
    MissingSeats(q, size);
    FractionsAreMissing(q);
    cut := WinnersAreSeats(q, order, r);
    y := Membership(|q|, order[..r]);
    assert Winners(q, size) == order[..r];
  }

  lemma {:induction false} SumsAdd(q: seq<real>, a: seq<int>, y: seq<int>)
    requires |a| == |q| == |y| && forall i :: 0 <= i < |q| ==> a[i] == q[i].Floor + y[i]
    ensures SumInt(a) == SumInt(Floors(q)) + SumInt(y)
  {
    if q != [] {
      var n := |q| - 1;
      SumsAdd(q[..n], a[..n], y[..n]);
      assert Floors(q)[..n] == Floors(q[..n]);
    }
  }

  /** The quota rule and feasibility: the seats add up to the requested size; every stratum gets
      its quota rounded down or up, up only if the quota is fractional; none is overdrawn. */
  lemma Feasible(sizes: seq<nat>, size: int)
    requires 0 <= size <= SumInt(sizes) && SumInt(sizes) > 0
    ensures SumInt(Allocation(sizes, size)) == size
    ensures forall i :: 0 <= i < |sizes| ==>
      var a, q := Allocation(sizes, size)[i], Quotas(sizes, size)[i];
      && (a == q.Floor || (a == q.Floor + 1 && q > q.Floor as real))
      && 0 <= a <= sizes[i]
  {
    var y, cut := AllocationIsSeated(sizes, size);
    var q, a := Quotas(sizes, size), Allocation(sizes, size);
    SumsAdd(q, a, y);
    forall i | 0 <= i < |sizes|
      ensures (a[i] == q[i].Floor || (a[i] == q[i].Floor + 1 && q[i] > q[i].Floor as real)) && 0 <= a[i] <= sizes[i]
    {
      if y[i] == 1 { WinnersAreOwed(q, y, size - SumInt(Floors(q)), cut, i); }
      QuotaBounds(size, sizes[i], SumInt(sizes), q[i]);
    }
  }

  lemma QuotaBounds(size: int, c: nat, total: int, q: real)
    requires 0 <= size <= total && total > 0 && q == (size * c) as real / total as real
    ensures 0.0 <= q <= c as real
  {
    assert q * total as real == (size * c) as real;
    assert 0 <= size * c <= total * c;
    assert (total * c) as real == c as real * total as real;
    if q < 0.0 { Strict(q, 0.0, total as real); }
    if q > c as real { Strict(c as real, q, total as real); }
  }

  /** The extra seats go by the fraction of the quota, the earlier stratum first among equal ones. */
  lemma LargestRemaindersFirst(sizes: seq<nat>, size: int, i: nat, j: nat)
    requires 0 <= size <= SumInt(sizes) && SumInt(sizes) > 0 && i < |sizes| && j < |sizes|
    ensures var q, a := Quotas(sizes, size), Allocation(sizes, size);
      var fi, fj := q[i] - q[i].Floor as real, q[j] - q[j].Floor as real;
      (fi > fj || (fi == fj && i < j)) && a[j] > q[j].Floor ==> a[i] > q[i].Floor
  {
    var q := Quotas(sizes, size);
    var order := Sort(Indices(|q|), OwedFirst(q));
    QuotasSumToSize(sizes, size);
    MissingSeats(q, size);
    if OwedFirst(q)(i, j) && !OwedFirst(q)(j, i) && j in Winners(q, size) {
      EarlierWins(q, order, size - SumInt(Floors(q)), i, j);
    }
  }

  lemma EarlierWins(q: seq<real>, order: seq<int>, r: nat, i: nat, j: nat)
    requires order == Sort(Indices(|q|), OwedFirst(q)) && r <= |q|
    requires i < |q| && !OwedFirst(q)(j, i) && j in order[..r]
    ensures i in order[..r]
  {
    hide Sort;
    OrderFacts(q, order);
    OwedOrder(q);
    SortSorts(Indices(|q|), OwedFirst(q));
    hide OwedFirst;
    var b :| 0 <= b < r && order[b] == j;
    assert i in order;
    var a :| 0 <= a < |order| && order[a] == i;
    NotAfter(order, OwedFirst(q), a, b);
    assert a < r && order[..r][a] == i;
  }

  // ----- optimality

  function Distance(x: int, q: real): real {
    if x as real >= q then x as real - q else q - x as real
  }

  function Deviation(x: seq<int>, q: seq<real>): real
    requires |x| == |q|
  {
    if x == [] then 0.0 else Deviation(x[..|x| - 1], q[..|x| - 1]) + Distance(x[|x| - 1], q[|x| - 1])
  }

  // One stratum: with the price `1 - 2 cut` per seat, the seat given is the best number of seats.
  lemma BestHere(d: int, y: int, q: real, cut: real)
    requires 0.0 <= cut <= 1.0
    requires (y == 1 && Fraction(q) >= cut) || (y == 0 && Fraction(q) <= cut)
    ensures Distance(q.Floor + d, q) - Distance(q.Floor + y, q) >= (1.0 - 2.0 * cut) * (d - y) as real
  {
    var f := Fraction(q);
    var m := (d - y) as real;
    assert (1.0 - 2.0 * cut) * m == m - 2.0 * (cut * m);
    if d >= 1 {
      assert Distance(q.Floor + d, q) == d as real - f;
      assert m == d as real - y as real;
      MoreSeats(f, cut, d as real, y as real, m);
    } else {
      assert Distance(q.Floor + d, q) == f - d as real;
      assert m == d as real - y as real;
      FewerSeats(f, cut, d as real, y as real, m);
    }
  }

  lemma MoreSeats(f: real, cut: real, d: real, y: real, m: real)
    requires 0.0 <= cut <= 1.0 && d >= 1.0 && m == d - y
    requires (y == 1.0 && f >= cut) || (y == 0.0 && f <= cut)
    ensures (d - f) - (if y == 1.0 then 1.0 - f else f) >= m - 2.0 * (cut * m)
  {
    ScaledUp(cut, m, 1.0 - y);
    if y == 1.0 {
      assert cut * (1.0 - y) == 0.0;
    } else {
      assert cut * (1.0 - y) == cut;
    }
  }

  lemma FewerSeats(f: real, cut: real, d: real, y: real, m: real)
    requires 0.0 <= cut <= 1.0 && d <= 0.0 && m == d - y
    requires (y == 1.0 && f >= cut) || (y == 0.0 && f <= cut)
    ensures (f - d) - (if y == 1.0 then 1.0 - f else f) >= m - 2.0 * (cut * m)
  {
    var up := -m;
    ScaledUp(1.0 - cut, up, y);
    assert (1.0 - cut) * up == up - cut * up;
    assert cut * m == -(cut * up);
    if y == 1.0 {
      assert (1.0 - cut) * y == 1.0 - cut;
    } else {
      assert (1.0 - cut) * y == 0.0;
    }
  }

  lemma ScaledUp(c: real, u: real, least: real)
    requires c >= 0.0 && u >= least && (least == 0.0 || least == 1.0)
    ensures c * u >= c * least
  {
    assert c * (u - least) >= 0.0;
  }

  lemma {:induction false} PricedOut(x: seq<int>, a: seq<int>, q: seq<real>, y: seq<int>, cut: real, price: real)
    requires |x| == |a| == |q| == |y| && 0.0 <= cut <= 1.0 && price == 1.0 - 2.0 * cut
    requires forall i :: 0 <= i < |q| ==>
      && a[i] == q[i].Floor + y[i]
      && ((y[i] == 1 && Fraction(q[i]) >= cut) || (y[i] == 0 && Fraction(q[i]) <= cut))
    ensures Deviation(x, q) - Deviation(a, q) >= price * (SumInt(x) - SumInt(a)) as real
  {
    hide Distance, Fraction;
    if x == [] {
      assert price * 0.0 == 0.0;
    } else {
      var n := |x| - 1;
      PricedOut(x[..n], a[..n], q[..n], y[..n], cut, price);
      BestHere(x[n] - q[n].Floor, y[n], q[n], cut);
      PriceSum(price, SumInt(x[..n]) - SumInt(a[..n]), x[n] - a[n], SumInt(x) - SumInt(a));
    }
  }

  lemma PriceSum(price: real, u: int, v: int, s: int)
    requires s == u + v
    ensures price * s as real == price * u as real + price * v as real
  {
    assert s as real == u as real + v as real;
  }

  /** No other way of giving out `size` seats comes closer to the quotas in total. */
  lemma Optimal(sizes: seq<nat>, size: int, x: seq<int>)
    requires SumInt(sizes) > 0 && 0 <= size <= SumInt(sizes)
    requires |x| == |sizes| && SumInt(x) == size
    ensures Deviation(Allocation(sizes, size), Quotas(sizes, size)) <= Deviation(x, Quotas(sizes, size))
  {
    hide Deviation, Sum;
    var y, cut := AllocationIsSeated(sizes, size);
    var q, a := Quotas(sizes, size), Allocation(sizes, size);
    Feasible(sizes, size);
    PricedOut(x, a, q, y, cut, 1.0 - 2.0 * cut);
    assert (1.0 - 2.0 * cut) * 0.0 == 0.0;
  }
}
