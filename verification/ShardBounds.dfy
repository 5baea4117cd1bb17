/** What greedy placement guarantees: the spread of the loads, Graham's list bound,
    the bound for files placed by descending cost, and exactly when a shard stays empty. */
module ShardBounds {
  import opened Sums
  import opened ShardLoads

  // Shard s is the lightest when k files have been placed, the first such shard on a tie.
  ghost predicate Lightest(p: seq<real>, a: seq<nat>, k: nat, total: nat, s: nat)
    requires k <= |p| && k <= |a|
  {
    && s < total
    && forall i :: 0 <= i < total ==>
         && Load(p, a, k, s) <= Load(p, a, k, i)
         && (i < s ==> Load(p, a, k, s) < Load(p, a, k, i))
  }

  // Every file was put on the lightest shard of its moment.
  ghost predicate Greedy(p: seq<real>, a: seq<nat>, total: nat) {
    && Slots(a, |p|, total)
    && forall k :: 0 <= k < |p| ==> Lightest(p, a, k, total, a[k])
  }

  // No two shards ever differ by more than the dearest file.
  lemma {:induction false} Spread(p: seq<real>, a: seq<nat>, total: nat, k: nat, top: real, i: nat, j: nat)
    requires Greedy(p, a, total) && NonNegative(p) && k <= |p|
    requires i < total && j < total && top >= 0.0
    requires forall f :: 0 <= f < k ==> p[f] <= top
    ensures Load(p, a, k, i) - Load(p, a, k, j) <= top
  {
    if k > 0 {
      Spread(p, a, total, k - 1, top, i, j);
      assert Lightest(p, a, k - 1, total, a[k - 1]);
    }
  }

  // The file that brought shard i to its final load.
  lemma {:induction false} LastFileOn(p: seq<real>, a: seq<nat>, k: nat, i: nat) returns (f: nat)
    requires k <= |p| && k <= |a| && Load(p, a, k, i) > 0.0
    ensures f < k && a[f] == i && Load(p, a, f + 1, i) == Load(p, a, k, i)
  {
    f := k - 1;
    if a[k - 1] != i { f := LastFileOn(p, a, k - 1, i); }
  }

  lemma {:induction false} TotalGrows(p: seq<real>, j: nat, k: nat)
    requires j <= k <= |p| && NonNegative(p)
    ensures Sum(p[..j]) <= Sum(p[..k])
    decreases k - j
  {
    if j < k {
      TotalGrows(p, j, k - 1);
      SumPrefix(p, k);
    }
  }

  // Whatever is placed f-th starts no later than the average load of the files before it.
  lemma StartsBelowAverage(p: seq<real>, a: seq<nat>, total: nat, f: nat)
    requires Greedy(p, a, total) && f < |p|
    ensures Times(total, Load(p, a, f, a[f])) <= Sum(p[..f])
  {
    assert Lightest(p, a, f, total, a[f]);
    LoadsAtLeast(p, a, f, total, Load(p, a, f, a[f]));
    LoadBelowAll(p, a, f, total);
  }

  lemma AverageBelowMakespan(p: seq<real>, b: seq<nat>, total: nat)
    requires Slots(b, |p|, total) && total > 0 && NonNegative(p)
    ensures Sum(p) <= Times(total, Makespan(p, b, total))
    ensures forall k, i :: 0 <= k <= |p| && 0 <= i < total ==> Load(p, b, k, i) <= Makespan(p, b, total)
    ensures Makespan(p, b, total) >= 0.0
  {
    MakespanIsMaximum(p, b, total);
    var high := Makespan(p, b, total);
    forall k, i | 0 <= k <= |p| && 0 <= i < total ensures 0.0 <= Load(p, b, k, i) <= high {
      LoadMonotone(p, b, 0, k, i);
      LoadMonotone(p, b, k, |p|, i);
    }
    assert 0.0 <= Load(p, b, 0, 0) <= high;
    LoadsAtMost(p, b, |p|, total, high);
    LoadBelowAll(p, b, |p|, total);
    assert p[..|p|] == p;
  }

  lemma HeaviestStartsBelowAverage(p: seq<real>, a: seq<nat>, total: nat) returns (f: nat)
    requires total > 0 && Greedy(p, a, total) && NonNegative(p)
    requires Makespan(p, a, total) > 0.0
    ensures f < |p| && Load(p, a, f, a[f]) + p[f] == Makespan(p, a, total)
    ensures Times(total, Makespan(p, a, total)) <= Sum(p) + Times(total - 1, p[f])
  {
    MakespanIsMaximum(p, a, total);
    var i :| 0 <= i < total && Load(p, a, |p|, i) == Makespan(p, a, total);
    f := LastFileOn(p, a, |p|, i);
    StartsBelowAverage(p, a, total, f);
    TotalGrows(p, f + 1, |p|);
    SumPrefix(p, f + 1);
    assert p[..|p|] == p;
    TimesLaws(total, Load(p, a, f, i), p[f]);
  }

  ghost predicate WithinListBound(total: nat, load: real, sum: real, top: real) {
    total as real * load <= sum + (total - 1) as real * top
  }

  /** Graham's list bound, for files placed in any order. */
  lemma ListBound(p: seq<real>, a: seq<nat>, total: nat, top: real)
    requires total > 0 && Greedy(p, a, total) && NonNegative(p) && top >= 0.0
    requires forall f :: 0 <= f < |p| ==> p[f] <= top
    ensures WithinListBound(total, Makespan(p, a, total), Sum(p), top)
  {
    hide Sum, Makespan, Times;
    var load := Makespan(p, a, total);
    SumNonNegative(p);
    TimesLaws(total - 1, 0.0, top);
    if load > 0.0 {
      var f := HeaviestStartsBelowAverage(p, a, total);
      TimesLaws(total - 1, p[f], top);
    } else {
      TimesLaws(total, load, 0.0);
    }
    Products(total, total - 1, load, top);
  }

  lemma SumNonNegative(p: seq<real>)
    requires NonNegative(p)
    ensures Sum(p) >= 0.0
  {
    TotalGrows(p, 0, |p|);
    assert p[..0] == [] && p[..|p|] == p;
  }

  lemma Products(total: nat, m: nat, load: real, top: real)
    requires total == m + 1
    ensures Times(total, load) == total as real * load
    ensures Times(m, top) == (total - 1) as real * top
  {
    TimesIsProduct(total, load);
    TimesIsProduct(m, top);
    assert m == total - 1;
  }

  lemma {:induction false} Thrice(c: nat, x: real)
    requires x >= 0.0
    ensures c > 2 ==> Times(c, x) >= 3.0 * x
  {
    if c > 3 { Thrice(c - 1, x); }
    assert c == 3 ==> Times(c, x) == Times(1, x) + x + x;
  }

  // At most two of the first l files share a shard, when each costs more than a third of `high`.
  lemma TwoPerShard(p: seq<real>, b: seq<nat>, l: nat, i: nat, high: real)
    requires 0 < l <= |p| && l <= |b| && Descending(p)
    requires 3.0 * p[l - 1] > high >= Load(p, b, l, i) && high >= 0.0
    ensures Count(b, l, i) <= 2
  {
    LoadGrows(p, b, 0, l, i, p[l - 1]);
    Thrice(Count(b, l, i), p[l - 1]);
  }

  // The file that finishes the heaviest shard, when it costs more than a third of `high`:
  // the greedy load it makes fits under `high` as well.
  lemma DearLastFile(p: seq<real>, a: seq<nat>, b: seq<nat>, total: nat, f: nat, l: nat, high: real)
    requires total > 0 && Greedy(p, a, total) && Slots(b, |p|, total)
    requires NonNegative(p) && Descending(p) && f < |p| && l == f + 1
    requires forall i :: 0 <= i < total ==> Load(p, b, l, i) <= high
    requires 3.0 * p[f] > high >= 0.0
    ensures Load(p, a, f, a[f]) + p[f] <= high
  {
    assert Lightest(p, a, f, total, a[f]);
    forall i | 0 <= i < total ensures Count(b, l, i) <= 2 { TwoPerShard(p, b, l, i, high); }
    if f < total {
      var i := ShardWithFew(a, f, 0, total, 1);
      UnusedShardIsEmpty(p, a, f, i);
      LoadMonotone(p, b, 0, f, b[f]);
      assert Load(p, b, l, b[f]) <= high;
    } else {
      if l > 2 * total {
        var i := ShardWithMany(b, l, 0, total, 2);
        assert false;
      }
      var i := SomeShardIsLight(p, a, total, f);
      var j := SomeShardPairs(p, b, total, l);
      assert Load(p, a, f, a[f]) <= Load(p, a, f, i);
    }
  }

  lemma LongestFirst(p: seq<real>, a: seq<nat>, b: seq<nat>, total: nat, load: real, high: real)
    requires total > 0 && Greedy(p, a, total) && Slots(b, |p|, total)
    requires NonNegative(p) && Descending(p)
    requires load == Makespan(p, a, total) && high == Makespan(p, b, total)
    ensures 3.0 * Times(total, load) <= 3.0 * Times(total, high) + Times(total - 1, high)
  {
    AverageBelowMakespan(p, b, total);
    if load <= high {
      TimesLaws(total, load, high);
      TimesLaws(total - 1, 0.0, high);
    } else {
      var f := HeaviestStartsBelowAverage(p, a, total);
      if 3.0 * p[f] > high {
        DearLastFile(p, a, b, total, f, f + 1, high);
        assert false;
      }
      Thirds(total - 1, p[f], high);
    }
  }

  // load <= (4/3 - 1/(3 total)) * high
  ghost predicate WithinFourThirds(total: nat, load: real, high: real) {
    3.0 * (total as real * load) <= (4 * total - 1) as real * high
  }

  /** Files placed by descending cost: the heaviest shard is at most
      4/3 - 1/(3 total) times the heaviest shard of any other assignment. */
  lemma LongestFirstBound(p: seq<real>, a: seq<nat>, b: seq<nat>, total: nat, load: real, high: real)
    requires total > 0 && Greedy(p, a, total) && Slots(b, |p|, total)
    requires NonNegative(p) && Descending(p)
    requires load == Makespan(p, a, total) && high == Makespan(p, b, total)
    ensures WithinFourThirds(total, load, high)
  {
    LongestFirst(p, a, b, total, load, high);
    FourTimes(total, total - 1, load, high);
  }

  lemma {:induction false} Thirds(m: nat, x: real, high: real)
    requires 3.0 * x <= high
    ensures 3.0 * Times(m, x) <= Times(m, high)
  {
    if m > 0 { Thirds(m - 1, x, high); }
  }

  lemma FourTimes(total: nat, m: nat, load: real, high: real)
    requires total == m + 1
    requires 3.0 * Times(total, load) <= 3.0 * Times(total, high) + Times(m, high)
    ensures 3.0 * (total as real * load) <= (4 * total - 1) as real * high
  {
    TimesIsProduct(total, load);
    TimesIsProduct(total, high);
    TimesIsProduct(m, high);
    assert (4 * total - 1) as real == 3.0 * total as real + m as real;
  }

  /** Two shards and costs 3, 3, 2, 2, 2 reach the bound: 7 against 6. */
  lemma LongestFirstBoundIsReached()
    ensures exists p, a, b ::
      && NonNegative(p) && Descending(p) && Greedy(p, a, 2) && Slots(b, |p|, 2)
      && 3.0 * (2.0 * Makespan(p, a, 2)) == 7.0 * Makespan(p, b, 2) > 0.0
  {
    var p: seq<real> := [3.0, 3.0, 2.0, 2.0, 2.0];
    var a: seq<nat> := [0, 1, 0, 1, 0];
    var b: seq<nat> := [0, 0, 1, 1, 1];
    LoadFive(p, a, 0);
    LoadFive(p, a, 1);
    LoadFive(p, b, 0);
    LoadFive(p, b, 1);
    forall k | 0 <= k < 5 ensures Lightest(p, a, k, 2, a[k]) {
      assert k == 0 || k == 1 || k == 2 || k == 3 || k == 4;
    }
    assert Makespan(p, a, 1) == 7.0 && Makespan(p, b, 1) == 6.0;
    assert Makespan(p, a, 2) == 7.0 && Makespan(p, b, 2) == 6.0;
    assert Greedy(p, a, 2) && Slots(b, |p|, 2);
  }

  lemma LoadFive(p: seq<real>, a: seq<nat>, i: nat)
    requires |p| == |a| == 5
    ensures Load(p, a, 1, i) == if a[0] == i then p[0] else 0.0
    ensures Load(p, a, 2, i) == Load(p, a, 1, i) + if a[1] == i then p[1] else 0.0
    ensures Load(p, a, 3, i) == Load(p, a, 2, i) + if a[2] == i then p[2] else 0.0
    ensures Load(p, a, 4, i) == Load(p, a, 3, i) + if a[3] == i then p[3] else 0.0
    ensures Load(p, a, 5, i) == Load(p, a, 4, i) + if a[4] == i then p[4] else 0.0
  {
  }

  // ----- empty shards

  // The first files, while they are positive and fewer than the shards, each open the next shard.
  lemma {:induction false} PositiveFilesOpenShards(p: seq<real>, a: seq<nat>, total: nat, k: nat)
    requires Greedy(p, a, total) && NonNegative(p) && k <= |p| && k <= total
    requires forall f :: 0 <= f < k ==> p[f] > 0.0
    ensures forall f :: 0 <= f < k ==> a[f] == f
    ensures forall i :: 0 <= i < total ==> Load(p, a, k, i) == if i < k then p[i] else 0.0
  {
    if k > 0 {
      PositiveFilesOpenShards(p, a, total, k - 1);
      assert Lightest(p, a, k - 1, total, a[k - 1]);
      assert Load(p, a, k - 1, k - 1) == 0.0;
    }
  }

  // Once only free files are left and a shard is empty, they all go to the first empty one.
  lemma {:induction false} FreeFilesShareOneShard(p: seq<real>, a: seq<nat>, total: nat, open: nat, k: nat)
    requires Greedy(p, a, total) && NonNegative(p) && open <= k <= |p| && open < total
    requires forall f :: 0 <= f < |p| ==> (p[f] > 0.0 <==> f < open)
    ensures forall f :: open <= f < k ==> a[f] == open
    ensures forall i :: 0 <= i < total ==> Load(p, a, k, i) == if i < open then p[i] else 0.0
    decreases k
  {
    if k == open {
      PositiveFilesOpenShards(p, a, total, open);
    } else {
      FreeFilesShareOneShard(p, a, total, open, k - 1);
      assert Lightest(p, a, k - 1, total, a[k - 1]);
      assert Load(p, a, k - 1, open) == 0.0;
    }
  }

  ghost predicate AllShardsUsed(a: seq<nat>, total: nat) {
    forall i :: 0 <= i < total ==> i in a
  }

  /** Exactly when every shard receives a file: `open` of the files cost something, the rest nothing. */
  lemma NoShardEmpty(p: seq<real>, a: seq<nat>, total: nat, open: nat)
    requires total > 0 && Greedy(p, a, total) && NonNegative(p) && open <= |p|
    requires forall f :: 0 <= f < |p| ==> (p[f] > 0.0 <==> f < open)
    ensures AllShardsUsed(a, total) <==> open >= total || (open == total - 1 && open < |p|)
  {
    if open >= total {
      PositiveFilesOpenShards(p, a, total, total);
      forall i | 0 <= i < total ensures i in a { assert a[i] == i; }
    } else {
      FreeFilesShareOneShard(p, a, total, open, |p|);
      PositiveFilesOpenShards(p, a, total, open);
      forall i | 0 <= i < open ensures i in a { assert a[i] == i; }
      if open < |p| { assert a[open] == open; }
      if open < |p| && open + 1 < total { assert open + 1 !in a; }
      if open == |p| { assert open !in a; }
    }
  }
}
