/** Loads of an assignment of weighted files to shards, and how greedy placement
    compares with every other placement.

    An assignment is a sequence of shard numbers: file `k`, of cost `p[k]`, is on
    shard `a[k]`.  A prefix length `k` says how many files have been placed. */
module ShardLoads {
  import opened Sums

  ghost predicate Slots(a: seq<nat>, n: nat, total: nat) {
    |a| == n && forall k :: 0 <= k < n ==> a[k] < total
  }

  ghost predicate NonNegative(p: seq<real>) {
    forall k :: 0 <= k < |p| ==> p[k] >= 0.0
  }

  ghost predicate Descending(p: seq<real>) {
    forall j, k :: 0 <= j < k < |p| ==> p[j] >= p[k]
  }

  // Cost of the first k files that sit on shard i.
  function Load(p: seq<real>, a: seq<nat>, k: nat, i: nat): real
    requires k <= |p| && k <= |a|
  {
    if k == 0 then 0.0
    else Load(p, a, k - 1, i) + (if a[k - 1] == i then p[k - 1] else 0.0)
  }

  // Number of the first k files that sit on shard i.
  ghost function Count(a: seq<nat>, k: nat, i: nat): nat
    requires k <= |a|
  {
    if k == 0 then 0 else Count(a, k - 1, i) + (if a[k - 1] == i then 1 else 0)
  }

  // The heaviest shard.
  function Makespan(p: seq<real>, a: seq<nat>, total: nat): real
    requires |p| == |a| && total > 0
  {
    var last := Load(p, a, |p|, total - 1);
    if total == 1 then last
    else
      var rest := Makespan(p, a, total - 1);
      if rest < last then last else rest
  }

  lemma {:induction false} MakespanIsMaximum(p: seq<real>, a: seq<nat>, total: nat)
    requires |p| == |a| && total > 0
    ensures forall i :: 0 <= i < total ==> Load(p, a, |p|, i) <= Makespan(p, a, total)
    ensures exists i :: 0 <= i < total && Load(p, a, |p|, i) == Makespan(p, a, total)
  {
    if total > 1 {
      MakespanIsMaximum(p, a, total - 1);
    } else {
      assert Load(p, a, |p|, 0) == Makespan(p, a, total);
    }
    assert Load(p, a, |p|, total - 1) <= Makespan(p, a, total);
  }

  // ----- sums over shards, taken one shard at a time

  ghost function LoadBelow(p: seq<real>, a: seq<nat>, k: nat, m: nat): real
    requires k <= |p| && k <= |a|
  {
    if k == 0 then 0.0
    else LoadBelow(p, a, k - 1, m) + (if a[k - 1] < m then p[k - 1] else 0.0)
  }

  ghost function CountBelow(a: seq<nat>, k: nat, m: nat): nat
    requires k <= |a|
  {
    if k == 0 then 0 else CountBelow(a, k - 1, m) + (if a[k - 1] < m then 1 else 0)
  }

  lemma {:induction false} LoadBelowStep(p: seq<real>, a: seq<nat>, k: nat, m: nat)
    requires k <= |p| && k <= |a|
    ensures LoadBelow(p, a, k, m + 1) == LoadBelow(p, a, k, m) + Load(p, a, k, m)
  {
    if k > 0 { LoadBelowStep(p, a, k - 1, m); }
  }

  lemma {:induction false} LoadBelowZero(p: seq<real>, a: seq<nat>, k: nat)
    requires k <= |p| && k <= |a|
    ensures LoadBelow(p, a, k, 0) == 0.0
  {
    if k > 0 { LoadBelowZero(p, a, k - 1); }
  }

  lemma {:induction false} LoadBelowAll(p: seq<real>, a: seq<nat>, k: nat, m: nat)
    requires k <= |p| && k <= |a|
    requires forall j :: 0 <= j < k ==> a[j] < m
    ensures LoadBelow(p, a, k, m) == Sum(p[..k])
  {
    if k > 0 {
      LoadBelowAll(p, a, k - 1, m);
      SumPrefix(p, k);
    }
  }

  lemma {:induction false} CountBelowFacts(a: seq<nat>, k: nat, m: nat)
    requires k <= |a|
    ensures CountBelow(a, k, 0) == 0
    ensures CountBelow(a, k, m + 1) == CountBelow(a, k, m) + Count(a, k, m)
    ensures (forall j :: 0 <= j < k ==> a[j] < m) ==> CountBelow(a, k, m) == k
  {
    if k > 0 { CountBelowFacts(a, k - 1, m); }
  }

  // m times x, as a sum: keeps products of variables out of the inductions.
  ghost function Times(m: nat, x: real): real {
    if m == 0 then 0.0 else Times(m - 1, x) + x
  }

  lemma {:induction false} TimesIsProduct(m: nat, x: real)
    ensures Times(m, x) == m as real * x
  {
    if m > 0 {
      TimesIsProduct(m - 1, x);
      assert m as real * x == (m - 1) as real * x + x;
    }
  }

  lemma {:induction false} TimesLaws(m: nat, x: real, y: real)
    ensures Times(m, x + y) == Times(m, x) + Times(m, y)
    ensures x <= y ==> Times(m, x) <= Times(m, y)
    ensures Times(m, 0.0) == 0.0
  {
    if m > 0 { TimesLaws(m - 1, x, y); }
  }

  // A lower bound on every shard bounds the total from below.
  lemma {:induction false} LoadsAtLeast(p: seq<real>, a: seq<nat>, k: nat, m: nat, low: real)
    requires k <= |p| && k <= |a|
    requires forall i :: 0 <= i < m ==> low <= Load(p, a, k, i)
    ensures Times(m, low) <= LoadBelow(p, a, k, m)
  {
    LoadBelowZero(p, a, k);
    if m > 0 {
      LoadsAtLeast(p, a, k, m - 1, low);
      LoadBelowStep(p, a, k, m - 1);
    }
  }

  lemma {:induction false} LoadsAtMost(p: seq<real>, a: seq<nat>, k: nat, m: nat, high: real)
    requires k <= |p| && k <= |a|
    requires forall i :: 0 <= i < m ==> Load(p, a, k, i) <= high
    ensures LoadBelow(p, a, k, m) <= Times(m, high)
  {
    LoadBelowZero(p, a, k);
    if m > 0 {
      LoadsAtMost(p, a, k, m - 1, high);
      LoadBelowStep(p, a, k, m - 1);
    }
  }

  lemma OneMoreTimes(m: int, x: int)
    ensures m * x == (m - 1) * x + x
  {
  }

  // Pigeonhole over two prefixes of one assignment at once.
  lemma {:induction false} PairCounts(a: seq<nat>, k: nat, q: nat, m: nat, low: int, high: int)
    requires k <= |a| && q <= |a|
    requires forall i :: 0 <= i < m ==> low <= Count(a, k, i) + Count(a, q, i) <= high
    ensures m * low <= CountBelow(a, k, m) + CountBelow(a, q, m) <= m * high
  {
    CountBelowFacts(a, k, 0);
    CountBelowFacts(a, q, 0);
    if m > 0 {
      PairCounts(a, k, q, m - 1, low, high);
      CountBelowFacts(a, k, m - 1);
      CountBelowFacts(a, q, m - 1);
      OneMoreTimes(m, low);
      OneMoreTimes(m, high);
    }
  }

  lemma {:induction false} CountMonotone(a: seq<nat>, j: nat, k: nat, i: nat)
    requires j <= k <= |a|
    ensures Count(a, j, i) <= Count(a, k, i) <= Count(a, j, i) + (k - j)
    decreases k - j
  {
    if j < k { CountMonotone(a, j, k - 1, i); }
  }

  lemma ShardWithFew(a: seq<nat>, k: nat, q: nat, total: nat, c: nat) returns (i: nat)
    requires Slots(a, |a|, total) && q <= k <= |a| && k + q < c * total
    ensures i < total && Count(a, k, i) + Count(a, q, i) < c
  {
    if i :| 0 <= i < total && Count(a, k, i) + Count(a, q, i) < c { return i; }
    forall i | 0 <= i < total
      ensures c <= Count(a, k, i) + Count(a, q, i) <= k + q {
      CountMonotone(a, 0, k, i);
      CountMonotone(a, 0, q, i);
    }
    PairCounts(a, k, q, total, c, k + q);
    CountBelowFacts(a, k, total);
    CountBelowFacts(a, q, total);
    assert false;
  }

  lemma ShardWithMany(a: seq<nat>, k: nat, q: nat, total: nat, c: nat) returns (i: nat)
    requires Slots(a, |a|, total) && q <= k <= |a| && k + q > c * total
    ensures i < total && Count(a, k, i) + Count(a, q, i) > c
  {
    if i :| 0 <= i < total && Count(a, k, i) + Count(a, q, i) > c { return i; }
    PairCounts(a, k, q, total, 0, c);
    CountBelowFacts(a, k, total);
    CountBelowFacts(a, q, total);
    assert false;
  }

  // ----- loads in terms of counts

  lemma {:induction false} LoadMonotone(p: seq<real>, a: seq<nat>, j: nat, k: nat, i: nat)
    requires j <= k <= |p| && k <= |a| && NonNegative(p)
    ensures Load(p, a, j, i) <= Load(p, a, k, i)
    decreases k - j
  {
    if j < k { LoadMonotone(p, a, j, k - 1, i); }
  }

  lemma {:induction false} LoadGrows(p: seq<real>, a: seq<nat>, q: nat, k: nat, i: nat, each: real)
    requires q <= k <= |p| && k <= |a|
    requires forall j :: q <= j < k ==> p[j] >= each
    ensures Count(a, q, i) <= Count(a, k, i)
    ensures Load(p, a, k, i) >= Load(p, a, q, i) + Times(Count(a, k, i) - Count(a, q, i), each)
    decreases k
  {
    if q < k {
      LoadGrows(p, a, q, k - 1, i, each);
    }
  }

  lemma {:induction false} UnusedShardIsEmpty(p: seq<real>, a: seq<nat>, k: nat, i: nat)
    requires k <= |p| && k <= |a| && Count(a, k, i) == 0
    ensures Load(p, a, k, i) == 0.0
  {
    if k > 0 { UnusedShardIsEmpty(p, a, k - 1, i); }
  }

  // One file on shard i, and none among the first q: its cost is at most p[q].
  lemma {:induction false} LoneLateFile(p: seq<real>, a: seq<nat>, q: nat, k: nat, i: nat)
    requires q <= k <= |a| && k <= |p| && q < |p| && Descending(p) && NonNegative(p)
    requires Count(a, q, i) == 0 && Count(a, k, i) <= 1
    ensures Load(p, a, k, i) <= p[q]
    decreases k
  {
    if k == q {
      UnusedShardIsEmpty(p, a, k, i);
    } else if a[k - 1] == i {
      UnusedShardIsEmpty(p, a, k - 1, i);
    } else {
      LoneLateFile(p, a, q, k - 1, i);
    }
  }

  // Among the first k < 2*total files some shard holds no more than file 2*total-1-k costs.
  lemma SomeShardIsLight(p: seq<real>, a: seq<nat>, total: nat, k: nat) returns (i: nat)
    requires Slots(a, |a|, total) && k <= |a| && k < |p| && Descending(p) && NonNegative(p)
    requires total <= k < 2 * total
    ensures i < total && Load(p, a, k, i) <= p[2 * total - 1 - k]
  {
    var q := 2 * total - 1 - k;
    i := ShardWithFew(a, k, q, total, 2);
    CountMonotone(a, q, k, i);
    LoneLateFile(p, a, q, k, i);
  }

  // If no shard can hold three of the first l files, some shard pairs an early file with another.
  lemma SomeShardPairs(p: seq<real>, b: seq<nat>, total: nat, l: nat) returns (i: nat)
    requires Slots(b, |b|, total) && l <= |b| && l <= |p| && Descending(p) && NonNegative(p)
    requires total < l <= 2 * total
    requires forall i :: 0 <= i < total ==> Count(b, l, i) <= 2
    ensures i < total && Load(p, b, l, i) >= p[2 * total - l] + p[l - 1]
  {
    var q := 2 * total + 1 - l;
    i := ShardWithMany(b, l, q, total, 2);
    CountMonotone(b, q, l, i);
    LoadGrows(p, b, 0, q, i, p[q - 1]);
    LoadGrows(p, b, q, l, i, p[l - 1]);
    assert forall x: real :: Times(1, x) == x && Times(2, x) == Times(1, x) + x;
    assert 1 <= Count(b, q, i) <= 2 && Count(b, l, i) == 2;
  }
}
