/** `partition` of scripts/ci_test_shard.py: test files over CI shards, dearest file
    first, each on the lightest shard.  Costs are reals (binary rounding is left out). */
module CiTestShard {
  import opened Wrappers
  import opened Ordering
  import opened Sums
  import opened ShardLoads
  import opened ShardBounds

  datatype PartitionError = TooFewShards

  // ----- costs

  function Median(xs: seq<real>): real
    requires xs != []
  {
    var s := Sort(xs, RealLeq);
    var n := |s|;
    if n % 2 == 1 then s[n / 2] else (s[n / 2 - 1] + s[n / 2]) / 2.0
  }

  // The recorded weight of a file, or the fallback for a file without one.
  datatype Costing = Costing(weights: map<string, real>, fallback: real) {
    function Of(name: string): real {
      if name in weights then weights[name] else fallback
    }

    // The sort key (-cost, name).
    predicate Before(a: string, b: string) {
      Of(a) > Of(b) || (Of(a) == Of(b) && TextLeq(a, b))
    }
  }

  function IsKnown(weights: map<string, real>): string -> bool {
    (name: string) => name in weights
  }

  function Weight(weights: map<string, real>): string -> real {
    (name: string) => if name in weights then weights[name] else 0.0
  }

  function Known(files: seq<string>, weights: map<string, real>): seq<real> {
    Collect(files, IsKnown(weights), Weight(weights))
  }

  function CostingFor(files: seq<string>, weights: map<string, real>): Costing {
    var known := Known(files, weights);
    Costing(weights, if known == [] then 1.0 else Median(known))
  }

  function Order(c: Costing): (string, string) -> bool {
    (a: string, b: string) => c.Before(a, b)
  }

  function Ordered(files: seq<string>, c: Costing): (r: seq<string>)
    ensures multiset(r) == multiset(files) && |r| == |files|
  {
    Sort(files, Order(c))
  }

  function Costs(names: seq<string>, c: Costing): (p: seq<real>)
    ensures |p| == |names|
  {
    seq(|names|, k requires 0 <= k < |names| => c.Of(names[k]))
  }

  // ----- placement

  // `min(range(total), key=lambda index: (loads[index], index))`
  function ArgMin(loads: seq<real>): (i: nat)
    requires loads != []
    ensures i < |loads|
    ensures forall j :: 0 <= j < |loads| ==> loads[i] <= loads[j] && (j < i ==> loads[i] < loads[j])
  {
    var n := |loads| - 1;
    if n == 0 then 0
    else
      var i := ArgMin(loads[..n]);
      if loads[n] < loads[i] then n else i
  }

  function Loads(p: seq<real>, a: seq<nat>, k: nat, total: nat): (r: seq<real>)
    requires k <= |p| && k <= |a|
    ensures |r| == total
  {
    seq(total, i requires 0 <= i < total => Load(p, a, k, i))
  }

  // The shards chosen for the first k files.
  function Place(p: seq<real>, total: nat, k: nat): (a: seq<nat>)
    requires total > 0 && k <= |p|
    ensures Slots(a, k, total)
  {
    if k == 0 then []
    else
      var a := Place(p, total, k - 1);
      a + [ArgMin(Loads(p, a, k - 1, total))]
  }

  function OnShard(names: seq<string>, a: seq<nat>, k: nat, i: nat): seq<string>
    requires k <= |names| && k <= |a|
  {
    if k == 0 then []
    else OnShard(names, a, k - 1, i) + (if a[k - 1] == i then [names[k - 1]] else [])
  }

  // The files in placement order, and the shard of each.
  datatype Plan = Plan(names: seq<string>, slots: seq<nat>)

  function PlanFor(files: seq<string>, c: Costing, total: nat): (plan: Plan)
    requires total > 0
    ensures multiset(plan.names) == multiset(files) && |plan.names| == |files|
    ensures Slots(plan.slots, |plan.names|, total)
  {
    var names := Ordered(files, c);
    Plan(names, Place(Costs(names, c), total, |names|))
  }

  function ShardsOf(plan: Plan, total: nat): (r: seq<seq<string>>)
    requires |plan.slots| == |plan.names|
    ensures |r| == total
  {
    seq(total, i requires 0 <= i < total => Sort(OnShard(plan.names, plan.slots, |plan.names|, i), TextLeq))
  }

  function Shards(files: seq<string>, weights: map<string, real>, total: nat): (r: seq<seq<string>>)
    requires total > 0
    ensures |r| == total
  {
    ShardsOf(PlanFor(files, CostingFor(files, weights), total), total)
  }

  function Lists(names: seq<string>, a: seq<nat>, k: nat, total: nat): (r: seq<seq<string>>)
    requires k <= |names| && k <= |a|
    ensures |r| == total
  {
    seq(total, i requires 0 <= i < total => OnShard(names, a, k, i))
  }

  // Placing file k on shard s adds its cost and its name there, and nowhere else.
  lemma PlaceOne(names: seq<string>, p: seq<real>, a: seq<nat>, k: nat, s: nat, total: nat)
    requires k == |a| && k < |p| && |p| == |names| && s < total
    ensures Loads(p, a + [s], k + 1, total) == Loads(p, a, k, total)[s := Loads(p, a, k, total)[s] + p[k]]
    ensures Lists(names, a + [s], k + 1, total)
      == Lists(names, a, k, total)[s := Lists(names, a, k, total)[s] + [names[k]]]
  {
    var next := a + [s];
    assert next[..k] == a == a[..k];
    forall i | 0 <= i < total
      ensures Load(p, next, k + 1, i) == Load(p, a, k, i) + (if i == s then p[k] else 0.0)
      ensures OnShard(names, next, k + 1, i) == OnShard(names, a, k, i) + (if i == s then [names[k]] else []) {
      PrefixOnly(p, p, next, a, k, i);
      NamesPrefixOnly(names, names, next, a, k, i);
    }
    var before, after := Lists(names, a, k, total), Lists(names, next, k + 1, total);
    var updated := before[s := before[s] + [names[k]]];
    assert |updated| == |after|;
    forall i | 0 <= i < total ensures after[i] == updated[i] {
      assert after[i] == OnShard(names, next, k + 1, i) && before[i] == OnShard(names, a, k, i);
    }
    assert after == updated;
  }

  method Partition(files: seq<string>, weights: map<string, real>, total: int)
    returns (r: Result<seq<seq<string>>, PartitionError>)
    ensures total < 1 <==> r == Err(TooFewShards)
    ensures total >= 1 ==> r == Ok(Shards(files, weights, total))
  {
    if total < 1 { return Err(TooFewShards); }
    var known := Known(files, weights);
    var fallback := if known != [] then Median(known) else 1.0;
    var c := Costing(weights, fallback);
    var lists := PlaceAll(Ordered(files, c), c, total);
    r := Ok(SortEach(lists));
    assert r.value == ShardsOf(PlanFor(files, c, total), total);
  }

  // The placement loop of `partition`.
  method PlaceAll(names: seq<string>, c: Costing, total: nat) returns (lists: seq<seq<string>>)
    requires total > 0
    ensures lists == Lists(names, Place(Costs(names, c), total, |names|), |names|, total)
  {
    var shards, loads := EmptyShards(names, c, total);
    for k := 0 to |names|
      invariant loads[..] == Loads(Costs(names, c), Place(Costs(names, c), total, k), k, total)
      invariant shards[..] == Lists(names, Place(Costs(names, c), total, k), k, total)
    {
      PlaceNext(names, c, Place(Costs(names, c), total, k), k, shards, loads);
    }
    lists := shards[..];
  }

  method EmptyShards(ghost names: seq<string>, ghost c: Costing, total: nat)
    returns (shards: array<seq<string>>, loads: array<real>)
    requires total > 0
    ensures fresh(shards) && fresh(loads) && shards.Length == loads.Length == total
    ensures loads[..] == Loads(Costs(names, c), [], 0, total)
    ensures shards[..] == Lists(names, [], 0, total)
  {
    shards := new seq<string>[total](_ => []);
    loads := new real[total](_ => 0.0);
  }

  // One round of the loop: file k goes on the lightest shard.
  method PlaceNext(names: seq<string>, c: Costing, ghost a: seq<nat>, k: nat,
                   shards: array<seq<string>>, loads: array<real>)
    requires k < |names| && loads.Length == shards.Length > 0
    requires a == Place(Costs(names, c), loads.Length, k)
    requires loads[..] == Loads(Costs(names, c), a, k, loads.Length)
    requires shards[..] == Lists(names, a, k, loads.Length)
    modifies shards, loads
    ensures var next := Place(Costs(names, c), loads.Length, k + 1);
      && loads[..] == Loads(Costs(names, c), next, k + 1, loads.Length)
      && shards[..] == Lists(names, next, k + 1, loads.Length)
  {
    var lightest := ArgMin(loads[..]);
    PlaceOne(names, Costs(names, c), a, k, lightest, loads.Length);
    AppendAt(shards, lightest, names[k]);
    AddAt(loads, lightest, c.Of(names[k]));
    assert Place(Costs(names, c), loads.Length, k + 1) == a + [lightest];
  }

  // `shards[i].append(name)`
  method AppendAt(shards: array<seq<string>>, i: nat, name: string)
    requires i < shards.Length
    modifies shards
    ensures shards[..] == old(shards[..])[i := old(shards[i]) + [name]]
  {
    shards[i] := shards[i] + [name];
  }

  // `loads[i] += cost`
  method AddAt(loads: array<real>, i: nat, cost: real)
    requires i < loads.Length
    modifies loads
    ensures loads[..] == old(loads[..])[i := old(loads[i]) + cost]
  {
    loads[i] := loads[i] + cost;
  }

  function SortEach(shards: seq<seq<string>>): (r: seq<seq<string>>)
    ensures |r| == |shards| && forall i :: 0 <= i < |r| ==> r[i] == Sort(shards[i], TextLeq)
  {
    seq(|shards|, i requires 0 <= i < |shards| => Sort(shards[i], TextLeq))
  }

  lemma {:induction false} PrefixOnly(p: seq<real>, q: seq<real>, a: seq<nat>, b: seq<nat>, k: nat, i: nat)
    requires k <= |p| && k <= |q| && k <= |a| && k <= |b|
    requires p[..k] == q[..k] && a[..k] == b[..k]
    ensures Load(p, a, k, i) == Load(q, b, k, i)
  {
    if k > 0 {
      assert p[..k - 1] == p[..k][..k - 1] && q[..k - 1] == q[..k][..k - 1];
      assert a[..k - 1] == a[..k][..k - 1] && b[..k - 1] == b[..k][..k - 1];
      assert p[k - 1] == p[..k][k - 1] && a[k - 1] == a[..k][k - 1];
      PrefixOnly(p, q, a, b, k - 1, i);
    }
  }

  lemma {:induction false} NamesPrefixOnly(p: seq<string>, q: seq<string>, a: seq<nat>, b: seq<nat>, k: nat, i: nat)
    requires k <= |p| && k <= |q| && k <= |a| && k <= |b|
    requires p[..k] == q[..k] && a[..k] == b[..k]
    ensures OnShard(p, a, k, i) == OnShard(q, b, k, i)
  {
    if k > 0 {
      assert p[..k - 1] == p[..k][..k - 1] && q[..k - 1] == q[..k][..k - 1];
      assert a[..k - 1] == a[..k][..k - 1] && b[..k - 1] == b[..k][..k - 1];
      assert p[k - 1] == p[..k][k - 1] && a[k - 1] == a[..k][k - 1];
      NamesPrefixOnly(p, q, a, b, k - 1, i);
    }
  }

  // ----- the placement is greedy, in descending cost

  lemma {:induction false} PlaceIsGreedy(p: seq<real>, total: nat, n: nat, k: nat)
    requires total > 0 && k < n <= |p|
    ensures Place(p, total, n)[..k] == Place(p, total, k)
    ensures Lightest(p, Place(p, total, n), k, total, Place(p, total, n)[k])
    decreases n
  {
    var a := Place(p, total, n);
    var b := Place(p, total, n - 1);
    assert a[..n - 1] == b;
    if k < n - 1 {
      PlaceIsGreedy(p, total, n - 1, k);
      assert a[..k] == b[..k];
    }
    forall i ensures Load(p, a, k, i) == Load(p, b, k, i) { PrefixOnly(p, p, a, b, k, i); }
    var c := Place(p, total, k);
    forall i ensures Load(p, b, k, i) == Load(p, c, k, i) {
      assert b[..k] == c == c[..k];
      PrefixOnly(p, p, b, c, k, i);
    }
    if k == n - 1 {
      var loads := Loads(p, c, k, total);
      assert a[k] == ArgMin(loads);
      forall i | 0 <= i < total ensures loads[i] == Load(p, a, k, i) { }
    }
  }

  lemma CostOrder(c: Costing)
    ensures TotalPreorder(Order(c)) && Antisymmetric(Order(c))
  {
    TextOrder();
  }

  // What `partition` works on: descending costs, placed greedily.
  lemma PlacementFacts(names: seq<string>, c: Costing, total: nat)
    requires total > 0 && SortedBy(names, Order(c))
    ensures Descending(Costs(names, c))
    ensures Greedy(Costs(names, c), Place(Costs(names, c), total, |names|), total)
  {
    var p := Costs(names, c);
    var a := Place(p, total, |names|);
    forall j, k | 0 <= j < k < |p| ensures p[j] >= p[k] {
      assert Order(c)(names[j], names[k]);
    }
    forall k | 0 <= k < |p| ensures Lightest(p, a, k, total, a[k]) {
      PlaceIsGreedy(p, total, |p|, k);
    }
  }

  // ----- shards as lists of names

  function ShardCost(shard: seq<string>, c: Costing): real {
    Sum(Costs(shard, c))
  }

  function Heaviest(shards: seq<seq<string>>, c: Costing): real
    requires shards != []
  {
    var n := |shards| - 1;
    var last := ShardCost(shards[n], c);
    if n == 0 then last
    else
      var rest := Heaviest(shards[..n], c);
      if rest < last then last else rest
  }

  // Every name on every shard, with repetition.
  ghost function AllNames(shards: seq<seq<string>>): multiset<string> {
    if shards == [] then multiset{} else multiset(shards[0]) + AllNames(shards[1..])
  }

  lemma ShardCostConcat(s: seq<string>, t: seq<string>, c: Costing)
    ensures ShardCost(s + t, c) == ShardCost(s, c) + ShardCost(t, c)
  {
    assert Costs(s + t, c) == Costs(s, c) + Costs(t, c);
    SumConcat(Costs(s, c), Costs(t, c));
  }

  lemma ShardCostOne(name: string, c: Costing)
    ensures ShardCost([name], c) == c.Of(name) && ShardCost([], c) == 0.0
  {
    var cost := [c.Of(name)];
    assert Costs([name], c) == cost && Costs([], c) == [] == cost[..0];
    assert Sum(cost) == Sum(cost[..0]) + c.Of(name);
  }

  lemma ShardCostCut(s: seq<string>, j: nat, c: Costing)
    requires j < |s|
    ensures ShardCost(s, c) == ShardCost(s[..j] + s[j + 1..], c) + c.Of(s[j])
  {
    hide ShardCost;
    assert s == s[..j] + ([s[j]] + s[j + 1..]);
    ShardCostConcat(s[..j], [s[j]] + s[j + 1..], c);
    ShardCostConcat([s[j]], s[j + 1..], c);
    ShardCostOne(s[j], c);
    ShardCostConcat(s[..j], s[j + 1..], c);
  }

  lemma {:induction false} ShardCostPermutes(s: seq<string>, t: seq<string>, c: Costing)
    requires multiset(s) == multiset(t)
    ensures ShardCost(s, c) == ShardCost(t, c)
    decreases |s|
  {
    hide ShardCost;
    assert |multiset(s)| == |s| && |multiset(t)| == |t|;
    if s != [] {
      var j := CutOut(s, t);
      ShardCostCut(s, 0, c);
      assert s[..0] + s[1..] == s[1..];
      ShardCostCut(t, j, c);
      ShardCostPermutes(s[1..], t[..j] + t[j + 1..], c);
    }
  }

  lemma {:induction false} OnShardCost(names: seq<string>, a: seq<nat>, k: nat, i: nat, c: Costing)
    requires k <= |names| && k <= |a|
    ensures ShardCost(OnShard(names, a, k, i), c) == Load(Costs(names, c), a, k, i)
  {
    if k > 0 {
      OnShardCost(names, a, k - 1, i, c);
      var on := OnShard(names, a, k - 1, i);
      if a[k - 1] == i {
        ShardCostConcat(on, [names[k - 1]], c);
        ShardCostOne(names[k - 1], c);
      } else {
        assert on + [] == on;
      }
    }
  }

  lemma {:induction false} HeaviestIsMakespan(shards: seq<seq<string>>, c: Costing, p: seq<real>, a: seq<nat>)
    requires shards != [] && |p| == |a|
    requires forall i :: 0 <= i < |shards| ==> ShardCost(shards[i], c) == Load(p, a, |p|, i)
    ensures Heaviest(shards, c) == Makespan(p, a, |shards|)
  {
    var n := |shards| - 1;
    var last := ShardCost(shards[n], c);
    assert last == Load(p, a, |p|, n);
    if n > 0 {
      HeaviestIsMakespan(shards[..n], c, p, a);
      var rest := Heaviest(shards[..n], c);
      assert rest == Makespan(p, a, n);
      assert Heaviest(shards, c) == if rest < last then last else rest;
      assert Makespan(p, a, n + 1) == if rest < last then last else rest;
    } else {
      assert Makespan(p, a, 1) == Load(p, a, |p|, 0);
      assert Heaviest(shards, c) == last;
    }
    assert n + 1 == |shards|;
  }

  // The loads the loop maintained are the costs of the shards it returns.
  lemma ShardLoadsAreCosts(plan: Plan, total: nat, c: Costing)
    requires total > 0 && |plan.slots| == |plan.names|
    ensures forall i :: 0 <= i < total ==>
      ShardCost(ShardsOf(plan, total)[i], c) == Load(Costs(plan.names, c), plan.slots, |plan.names|, i)
    ensures Heaviest(ShardsOf(plan, total), c) == Makespan(Costs(plan.names, c), plan.slots, total)
  {
    var shards := ShardsOf(plan, total);
    forall i | 0 <= i < total
      ensures ShardCost(shards[i], c) == Load(Costs(plan.names, c), plan.slots, |plan.names|, i) {
      var on := OnShard(plan.names, plan.slots, |plan.names|, i);
      OnShardCost(plan.names, plan.slots, |plan.names|, i, c);
      ShardCostPermutes(shards[i], on, c);
    }
    HeaviestIsMakespan(shards, c, Costs(plan.names, c), plan.slots);
  }

  lemma PlanIsGreedy(files: seq<string>, c: Costing, total: nat)
    requires total > 0
    ensures var plan := PlanFor(files, c, total);
      Descending(Costs(plan.names, c)) && Greedy(Costs(plan.names, c), plan.slots, total)
  {
    CostOrder(c);
    SortSorts(files, Order(c));
    PlacementFacts(Ordered(files, c), c, total);
  }

  // ----- every file on exactly one shard

  ghost function OnShards(names: seq<string>, a: seq<nat>, k: nat, from: nat, total: nat): multiset<string>
    requires k <= |names| && k <= |a| && from <= total
    decreases total - from
  {
    if from == total then multiset{}
    else multiset(OnShard(names, a, k, from)) + OnShards(names, a, k, from + 1, total)
  }

  lemma {:induction false} OnShardsStep(names: seq<string>, a: seq<nat>, k: nat, from: nat, total: nat)
    requires 0 < k <= |names| && k <= |a| && from <= total
    ensures OnShards(names, a, k, from, total) == OnShards(names, a, k - 1, from, total)
      + (if from <= a[k - 1] < total then multiset{names[k - 1]} else multiset{})
    decreases total - from
  {
    hide OnShard;
    if from < total {
      OnShardsStep(names, a, k, from + 1, total);
      OneMoreOnShard(names, a, k, from);
    }
  }

  lemma OneMoreOnShard(names: seq<string>, a: seq<nat>, k: nat, i: nat)
    requires 0 < k <= |names| && k <= |a|
    ensures multiset(OnShard(names, a, k, i)) == multiset(OnShard(names, a, k - 1, i))
      + (if a[k - 1] == i then multiset{names[k - 1]} else multiset{})
  {
  }

  lemma {:induction false} OnShardsAll(names: seq<string>, a: seq<nat>, k: nat, total: nat)
    requires k <= |names| && k <= |a| && (forall j :: 0 <= j < k ==> a[j] < total)
    ensures OnShards(names, a, k, 0, total) == multiset(names[..k])
  {
    if k == 0 {
      OnShardsNone(names, a, 0, total);
    } else {
      OnShardsAll(names, a, k - 1, total);
      OnShardsStep(names, a, k, 0, total);
      assert names[..k] == names[..k - 1] + [names[k - 1]];
    }
  }

  lemma {:induction false} OnShardsNone(names: seq<string>, a: seq<nat>, from: nat, total: nat)
    requires from <= total
    ensures OnShards(names, a, 0, from, total) == multiset{}
    decreases total - from
  {
    if from < total { OnShardsNone(names, a, from + 1, total); }
  }

  lemma {:induction false} AllNamesOnShards(shards: seq<seq<string>>, names: seq<string>, a: seq<nat>, from: nat)
    requires from <= |shards| && |names| <= |a|
    requires forall i :: 0 <= i < |shards| ==> multiset(shards[i]) == multiset(OnShard(names, a, |names|, i))
    ensures AllNames(shards[from..]) == OnShards(names, a, |names|, from, |shards|)
    decreases |shards| - from
  {
    if from < |shards| {
      AllNamesOnShards(shards, names, a, from + 1);
      assert shards[from..][0] == shards[from] && shards[from..][1..] == shards[from + 1..];
    }
  }

  /** No file is lost, duplicated or invented. */
  lemma EveryFileOnce(files: seq<string>, weights: map<string, real>, total: nat)
    requires total > 0
    ensures AllNames(Shards(files, weights, total)) == multiset(files)
  {
    var plan := PlanFor(files, CostingFor(files, weights), total);
    var shards := ShardsOf(plan, total);
    AllNamesOnShards(shards, plan.names, plan.slots, 0);
    assert shards[0..] == shards && plan.names[..|plan.names|] == plan.names;
    OnShardsAll(plan.names, plan.slots, |plan.names|, total);
  }

  /** Each shard keeps the order in which the whole suite would run. */
  lemma ShardsAreSorted(files: seq<string>, weights: map<string, real>, total: nat, i: nat)
    requires i < total
    ensures SortedBy(Shards(files, weights, total)[i], TextLeq)
  {
    var plan := PlanFor(files, CostingFor(files, weights), total);
    TextOrder();
    SortSorts(OnShard(plan.names, plan.slots, |plan.names|, i), TextLeq);
  }

  lemma MedianForgetsOrder(xs: seq<real>, ys: seq<real>)
    requires xs != [] && ys != [] && multiset(xs) == multiset(ys)
    ensures Median(xs) == Median(ys)
  {
    SortForgetsOrder(xs, ys, RealLeq);
  }

  lemma CostingForgetsOrder(files: seq<string>, others: seq<string>, weights: map<string, real>)
    requires multiset(files) == multiset(others)
    ensures CostingFor(files, weights) == CostingFor(others, weights)
  {
    var known, also := Known(files, weights), Known(others, weights);
    CollectForgetsOrder(files, others, IsKnown(weights), Weight(weights));
    if known != [] { MedianForgetsOrder(known, also); }
  }

  /** The order in which the files are listed does not matter. */
  lemma OrderIndependent(files: seq<string>, others: seq<string>, weights: map<string, real>, total: nat)
    requires total > 0 && multiset(files) == multiset(others)
    ensures Shards(files, weights, total) == Shards(others, weights, total)
  {
    CostingForgetsOrder(files, others, weights);
    var c := CostingFor(files, weights);
    CostOrder(c);
    SortForgetsOrder(files, others, Order(c));
  }

  // ----- the fallback cost

  lemma {:induction false} CountsPrefix(s: seq<real>, keep: real -> bool, j: nat)
    requires j <= |s| && forall k :: 0 <= k < j ==> keep(s[k])
    ensures |Collect(s, keep, (x: real) => x)| >= j
  {
    if j > 0 { CountsPrefix(s[1..], keep, j - 1); }
  }

  lemma {:induction false} CountsSuffix(s: seq<real>, keep: real -> bool, j: nat)
    requires j <= |s| && forall k :: j <= k < |s| ==> keep(s[k])
    ensures |Collect(s, keep, (x: real) => x)| >= |s| - j
  {
    if j > 0 { CountsSuffix(s[1..], keep, j - 1); } else { CountsPrefix(s, keep, |s|); }
  }

  /** The fallback is a median: at least half of the known weights on either side. */
  lemma MedianIsMiddle(xs: seq<real>)
    requires xs != []
    ensures 2 * |Collect(xs, (x: real) => x <= Median(xs), (x: real) => x)| >= |xs|
    ensures 2 * |Collect(xs, (x: real) => x >= Median(xs), (x: real) => x)| >= |xs|
  {
    var s, m := Sort(xs, RealLeq), Median(xs);
    MiddleOfSorted(xs);
    CountsPrefix(s, (x: real) => x <= m, (|s| - 1) / 2 + 1);
    CountsSuffix(s, (x: real) => x >= m, |s| / 2);
    CollectForgetsOrder(s, xs, (x: real) => x <= m, (x: real) => x);
    CollectForgetsOrder(s, xs, (x: real) => x >= m, (x: real) => x);
  }

  lemma MiddleOfSorted(xs: seq<real>)
    requires xs != []
    ensures var s := Sort(xs, RealLeq);
      && |s| == |xs| && multiset(s) == multiset(xs)
      && (forall k :: 0 <= k <= (|s| - 1) / 2 ==> s[k] <= Median(xs))
      && (forall k :: |s| / 2 <= k < |s| ==> s[k] >= Median(xs))
  {
    hide SortedBy;
    var s, m := Sort(xs, RealLeq), Median(xs);
    var low, high := (|s| - 1) / 2, |s| / 2;
    SortSorts(xs, RealLeq);
    InOrder(s, low, high);
    assert s[low] <= m <= s[high];
    forall k | 0 <= k <= low ensures s[k] <= m { InOrder(s, k, low); }
    forall k | high <= k < |s| ensures s[k] >= m { InOrder(s, high, k); }
  }

  lemma InOrder(s: seq<real>, i: nat, j: nat)
    requires SortedBy(s, RealLeq) && i <= j < |s|
    ensures s[i] <= s[j]
  {
    if i < j { assert RealLeq(s[i], s[j]); }
  }

  // ----- what a file costs, on files and weights alone

  // Where the files with a recorded weight in the given range are, both ends open.
  ghost function Recorded(files: seq<string>, weights: map<string, real>): set<int> {
    set i | 0 <= i < |files| && files[i] in weights
  }

  ghost function RecordedBelow(files: seq<string>, weights: map<string, real>, x: real): set<int> {
    set i | 0 <= i < |files| && files[i] in weights && weights[files[i]] < x
  }

  ghost function RecordedAbove(files: seq<string>, weights: map<string, real>, x: real): set<int> {
    set i | 0 <= i < |files| && files[i] in weights && weights[files[i]] > x
  }

  // x is a recorded weight, with at most k recorded weights below it and at most n - 1 - k above it.
  ghost predicate RankedWeight(files: seq<string>, weights: map<string, real>, k: int, x: real) {
    && (exists i :: 0 <= i < |files| && files[i] in weights && weights[files[i]] == x)
    && |RecordedBelow(files, weights, x)| <= k
    && |RecordedAbove(files, weights, x)| <= |Recorded(files, weights)| - 1 - k
  }

  ghost predicate Middle(files: seq<string>, weights: map<string, real>, n: nat, x: real, y: real) {
    RankedWeight(files, weights, (n - 1) / 2, x) && RankedWeight(files, weights, n / 2, y)
  }

  // The mean of the two middle recorded weights, which are one for an odd number; 1 without any.
  ghost predicate MiddleWeight(files: seq<string>, weights: map<string, real>, fallback: real) {
    var n := |Recorded(files, weights)|;
    if n == 0 then fallback == 1.0
    else exists x, y | Middle(files, weights, n, x, y) :: fallback == (x + y) / 2.0
  }

  // Every file costs its recorded weight, or the middle one.
  ghost predicate FileCosts(files: seq<string>, weights: map<string, real>, cost: map<string, real>) {
    && (forall name :: name in files ==> name in cost)
    && (forall name :: name in files && name in weights ==> cost[name] == weights[name])
    && forall name :: name in files && name !in weights ==> MiddleWeight(files, weights, cost[name])
  }

  function Below(x: real): real -> bool { (y: real) => y < x }

  function Above(x: real): real -> bool { (y: real) => y > x }

  lemma KnownCounts(files: seq<string>, weights: map<string, real>, x: real)
    ensures |Known(files, weights)| == |Recorded(files, weights)|
    ensures |Collect(Known(files, weights), Below(x), Itself)| == |RecordedBelow(files, weights, x)|
    ensures |Collect(Known(files, weights), Above(x), Itself)| == |RecordedAbove(files, weights, x)|
  {
    hide Collect;
    CollectCounts(files, IsKnown(weights), Weight(weights));
    assert Places(files, IsKnown(weights)) == Recorded(files, weights);
    var below := (name: string) => name in weights && weights[name] < x;
    var above := (name: string) => name in weights && weights[name] > x;
    CollectTwice(files, IsKnown(weights), Weight(weights), Below(x), Itself, below);
    CollectTwice(files, IsKnown(weights), Weight(weights), Above(x), Itself, above);
    CollectCounts(files, below, Itself);
    CollectCounts(files, above, Itself);
    assert Places(files, below) == RecordedBelow(files, weights, x);
    assert Places(files, above) == RecordedAbove(files, weights, x);
  }

  // In a sorted sequence, at most k elements are below the k-th and at most n - 1 - k above it.
  lemma RankInSorted(xs: seq<real>, k: nat)
    requires k < |xs|
    ensures var x := Sort(xs, RealLeq)[k];
      && x in xs
      && |Collect(xs, Below(x), Itself)| <= k && |Collect(xs, Above(x), Itself)| <= |xs| - 1 - k
  {
    var s := Sort(xs, RealLeq);
    SortSorts(xs, RealLeq);
    assert s[k] in multiset(xs);
    CollectForgetsOrder(s, xs, Below(s[k]), Itself);
    CollectForgetsOrder(s, xs, Above(s[k]), Itself);
    CollectCounts(s, Below(s[k]), Itself);
    CollectCounts(s, Above(s[k]), Itself);
    forall i | i in Places(s, Below(s[k])) ensures 0 <= i < k { assert i > k ==> RealLeq(s[k], s[i]); }
    forall i | i in Places(s, Above(s[k])) ensures k < i < |s| { assert i < k ==> RealLeq(s[i], s[k]); }
    SizeWithin(Places(s, Below(s[k])), 0, k);
    SizeWithin(Places(s, Above(s[k])), k + 1, |s| - 1 - k);
  }

  lemma {:induction false} SizeWithin(places: set<int>, from: int, n: nat)
    requires forall i :: i in places ==> from <= i < from + n
    ensures |places| <= n
  {
    if n > 0 {
      var rest := places - {from + n - 1};
      forall i | i in rest ensures from <= i < from + (n - 1) { }
      SizeWithin(rest, from, n - 1);
    } else {
      assert forall i: int :: i !in places;
      var none: set<int> := {};
      assert places == none;
    }
  }

  // The model's costs are the ones just described.
  lemma CostsAreFileCosts(files: seq<string>, weights: map<string, real>) returns (cost: map<string, real>)
    ensures FileCosts(files, weights, cost)
    ensures forall name :: name in files ==> CostingFor(files, weights).Of(name) == cost[name]
  {
    hide MiddleWeight;
    var c := CostingFor(files, weights);
    cost := map name | name in files :: c.Of(name);
    FallbackIsMiddle(files, weights);
  }

  lemma FallbackIsMiddle(files: seq<string>, weights: map<string, real>)
    ensures MiddleWeight(files, weights, CostingFor(files, weights).fallback)
  {
    hide Known, Sort, RankedWeight, Recorded, Median, Collect, RecordedBelow, RecordedAbove;
    var known := Known(files, weights);
    var n := |known|;
    KnownCounts(files, weights, 0.0);
    if known != [] {
      var s := Sort(known, RealLeq);
      Ranked(files, weights, (n - 1) / 2);
      Ranked(files, weights, n / 2);
      assert Middle(files, weights, n, s[(n - 1) / 2], s[n / 2]);
      MedianIsMean(known);
    }
  }

  lemma MedianIsMean(xs: seq<real>)
    requires xs != []
    ensures var s := Sort(xs, RealLeq); Median(xs) == (s[(|xs| - 1) / 2] + s[|xs| / 2]) / 2.0
  {
    hide Sort;
    var s, n := Sort(xs, RealLeq), |xs|;
    if n % 2 == 1 {
      assert (n - 1) / 2 == n / 2;
      Doubled(s[n / 2]);
    } else {
      assert (n - 1) / 2 == n / 2 - 1;
    }
  }

  lemma Doubled(x: real)
    ensures (x + x) / 2.0 == x
  {
  }

  lemma Ranked(files: seq<string>, weights: map<string, real>, k: nat)
    requires k < |Known(files, weights)|
    ensures RankedWeight(files, weights, k, Sort(Known(files, weights), RealLeq)[k])
  {
    var known := Known(files, weights);
    var x := Sort(known, RealLeq)[k];
    hide Sort, Collect, RecordedBelow, RecordedAbove, Recorded;
    RankInSorted(known, k);
    KnownCounts(files, weights, x);
    CollectMembers(files, IsKnown(weights), Weight(weights), x);
  }

  // ----- the whole of `partition`, on files, weights and their costs

  // The costs of the given names, in order.
  ghost function CostList(names: seq<string>, cost: map<string, real>): (p: seq<real>)
    requires forall name :: name in names ==> name in cost
    ensures |p| == |names| && forall k :: 0 <= k < |p| ==> p[k] == cost[names[k]]
  {
    seq(|names|, k requires 0 <= k < |names| => cost[names[k]])
  }

  // Dearest first, and among equal ones in text order.
  ghost predicate PlacementOrder(names: seq<string>, cost: map<string, real>)
    requires forall name :: name in names ==> name in cost
  {
    forall j, k :: 0 <= j < k < |names| ==>
      cost[names[j]] > cost[names[k]] || (cost[names[j]] == cost[names[k]] && TextLeq(names[j], names[k]))
  }

  /** `partition` is longest-processing-time-first: in placement order every file goes to the shard
      that is lightest at that moment, the first of them, where a file costs its recorded weight or
      else the median of the recorded ones; each returned shard lists its files in text order. */
  lemma PartitionIsLongestFirst(files: seq<string>, weights: map<string, real>, total: nat)
    returns (cost: map<string, real>, names: seq<string>, slots: seq<nat>)
    requires total > 0
    ensures FileCosts(files, weights, cost)
    ensures multiset(names) == multiset(files) && (forall name :: name in names ==> name in cost)
    ensures PlacementOrder(names, cost) && Greedy(CostList(names, cost), slots, total)
    ensures var shards := Shards(files, weights, total);
      forall i :: 0 <= i < total ==> ShardLists(shards[i], names, slots, i)
  {
    hide CostingFor, Greedy, ShardLists, SortedBy, TextLeq, ShardsOf, MiddleWeight;
    cost := CostsAreFileCosts(files, weights);
    var c := CostingFor(files, weights);
    var plan := PlanFor(files, c, total);
    names, slots := plan.names, plan.slots;
    forall name | name in names ensures name in cost && c.Of(name) == cost[name] {
      assert name in multiset(files);
    }
    hide FileCosts;
    assert CostList(names, cost) == Costs(names, c);
    PlanIsGreedy(files, c, total);
    PlanOrder(files, c, total, cost);
    forall i | 0 <= i < total ensures ShardLists(ShardsOf(plan, total)[i], names, slots, i) {
      ShardListsPlan(plan, total, i);
    }
  }

  lemma PlanOrder(files: seq<string>, c: Costing, total: nat, cost: map<string, real>)
    requires total > 0
    requires forall name :: name in PlanFor(files, c, total).names ==> name in cost && c.Of(name) == cost[name]
    ensures PlacementOrder(PlanFor(files, c, total).names, cost)
  {
    hide TextLeq;
    var names := PlanFor(files, c, total).names;
    CostOrder(c);
    SortSorts(files, Order(c));
    forall j, k | 0 <= j < k < |names|
      ensures cost[names[j]] > cost[names[k]] || (cost[names[j]] == cost[names[k]] && TextLeq(names[j], names[k])) {
      assert Order(c)(names[j], names[k]);
    }
  }

  lemma ShardListsPlan(plan: Plan, total: nat, i: nat)
    requires |plan.slots| == |plan.names| && i < total
    ensures ShardLists(ShardsOf(plan, total)[i], plan.names, plan.slots, i)
  {
    hide TextLeq, SortedBy;
    var on := OnShard(plan.names, plan.slots, |plan.names|, i);
    assert ShardsOf(plan, total)[i] == Sort(on, TextLeq);
    TextOrder();
    SortSorts(on, TextLeq);
    forall name ensures multiset(on)[name] == |Assigned(plan.names, plan.slots, i, name)| {
      OnShardAssigned(plan.names, plan.slots, |plan.names|, i, name);
      assert plan.names[..|plan.names|] == plan.names && plan.slots[..|plan.names|] == plan.slots;
    }
  }

  // The places in placement order at which the given name went to shard i.
  ghost function Assigned(names: seq<string>, slots: seq<nat>, i: nat, name: string): set<int>
    requires |slots| == |names|
  {
    set k | 0 <= k < |names| && names[k] == name && slots[k] == i
  }

  // The shard lists what went to it, in text order.
  ghost predicate ShardLists(shard: seq<string>, names: seq<string>, slots: seq<nat>, i: nat)
    requires |slots| == |names|
  {
    SortedBy(shard, TextLeq) && forall name :: multiset(shard)[name] == |Assigned(names, slots, i, name)|
  }

  lemma {:induction false} OnShardAssigned(names: seq<string>, a: seq<nat>, k: nat, i: nat, name: string)
    requires k <= |names| && k <= |a|
    ensures multiset(OnShard(names, a, k, i))[name] == |Assigned(names[..k], a[..k], i, name)|
  {
    if k == 0 {
      assert Assigned(names[..0], a[..0], i, name) == {};
    } else {
      OnShardAssigned(names, a, k - 1, i, name);
      hide OnShard;
      OneMoreOnShard(names, a, k, i);
      OneMoreAssigned(names, a, k, i, name);
    }
  }

  lemma OneMoreAssigned(names: seq<string>, a: seq<nat>, k: nat, i: nat, name: string)
    requires 0 < k <= |names| && k <= |a|
    ensures |Assigned(names[..k], a[..k], i, name)|
      == |Assigned(names[..k - 1], a[..k - 1], i, name)| + (if names[k - 1] == name && a[k - 1] == i then 1 else 0)
  {
    assert Assigned(names[..k], a[..k], i, name)
      == Assigned(names[..k - 1], a[..k - 1], i, name)
        + (if names[k - 1] == name && a[k - 1] == i then {k - 1} else {});
  }

  // ----- against any other way of splitting the files

  lemma {:induction false} ShardHolding(shards: seq<seq<string>>, name: string) returns (i: nat, j: nat)
    requires name in AllNames(shards)
    ensures i < |shards| && j < |shards[i]| && shards[i][j] == name
  {
    if name in shards[0] {
      i := 0;
      j :| 0 <= j < |shards[0]| && shards[0][j] == name;
    } else {
      i, j := ShardHolding(shards[1..], name);
      i := i + 1;
    }
  }

  lemma WithoutOne(s: seq<string>, j: nat)
    requires j < |s|
    ensures multiset(s) == multiset(s[..j] + s[j + 1..]) + multiset{s[j]}
  {
    assert s == s[..j] + [s[j]] + s[j + 1..];
  }

  // Taking one name out of a shard takes it out of all of them.
  lemma {:induction false} CutFromShard(shards: seq<seq<string>>, i: nat, cut: seq<string>, name: string)
    requires i < |shards| && multiset(shards[i]) == multiset(cut) + multiset{name}
    ensures AllNames(shards) == AllNames(shards[i := cut]) + multiset{name}
  {
    if i == 0 {
      assert shards[i := cut][1..] == shards[1..];
    } else {
      CutFromShard(shards[1..], i - 1, cut, name);
      assert shards[i := cut][1..] == shards[1..][i - 1 := cut];
    }
  }

  // Any split of the names into shards is an assignment with the same loads.
  lemma {:induction false} AssignmentOf(names: seq<string>, shards: seq<seq<string>>, c: Costing) returns (b: seq<nat>)
    requires multiset(names) == AllNames(shards)
    ensures Slots(b, |names|, |shards|)
    ensures forall i :: 0 <= i < |shards| ==> Load(Costs(names, c), b, |names|, i) == ShardCost(shards[i], c)
    decreases |names|
  {
    hide AllNames;
    if names == [] {
      b := [];
      forall i | 0 <= i < |shards| ensures ShardCost(shards[i], c) == 0.0 { NoNames(shards, i); }
    } else {
      var x, init := names[|names| - 1], names[..|names| - 1];
      assert names == init + [x];
      var i, j := ShardHolding(shards, x);
      var cut := shards[i][..j] + shards[i][j + 1..];
      WithoutOne(shards[i], j);
      CutFromShard(shards, i, cut, x);
      assert multiset(init) == multiset(names) - multiset{x};
      var a := AssignmentOf(init, shards[i := cut], c);
      b := a + [i];
      assert ShardCost(shards[i], c) == ShardCost(cut, c) + c.Of(x) by { ShardCostCut(shards[i], j, c); }
      Extended(init, x, a, i, shards, cut, c);
    }
  }

  lemma Extended(init: seq<string>, x: string, a: seq<nat>, i: nat, shards: seq<seq<string>>,
                 cut: seq<string>, c: Costing)
    requires |a| == |init| && i < |shards|
    requires ShardCost(shards[i], c) == ShardCost(cut, c) + c.Of(x)
    requires forall s :: 0 <= s < |shards| ==> Load(Costs(init, c), a, |init|, s) == ShardCost(shards[i := cut][s], c)
    ensures forall s :: 0 <= s < |shards| ==>
      Load(Costs(init + [x], c), a + [i], |init| + 1, s) == ShardCost(shards[s], c)
  {
    var n, p, q := |init|, Costs(init + [x], c), Costs(init, c);
    assert p[..n] == q == q[..n] && (a + [i])[..n] == a == a[..n];
    forall s | 0 <= s < |shards| ensures Load(p, a + [i], n + 1, s) == ShardCost(shards[s], c) {
      PrefixOnly(p, q, a + [i], a, n, s);
    }
  }

  lemma {:induction false} NoNames(shards: seq<seq<string>>, i: nat)
    requires AllNames(shards) == multiset{} && i < |shards|
    ensures shards[i] == []
  {
    assert |multiset(shards[0])| == |shards[0]|;
    if i > 0 { NoNames(shards[1..], i - 1); }
  }

  /** The slowest shard is at most 4/3 - 1/(3 total) times as slow as under any other split. */
  lemma PartitionBound(files: seq<string>, weights: map<string, real>, total: nat, other: seq<seq<string>>)
    requires total > 0 && |other| == total && AllNames(other) == multiset(files)
    requires forall name :: name in files ==> CostingFor(files, weights).Of(name) >= 0.0
    ensures var c := CostingFor(files, weights);
      WithinFourThirds(total, Heaviest(Shards(files, weights, total), c), Heaviest(other, c))
  {
    var c := CostingFor(files, weights);
    var plan := PlanFor(files, c, total);
    var b := ComparedWith(files, c, total, other);
    LongestFirstBound(Costs(plan.names, c), plan.slots, b, total,
      Heaviest(Shards(files, weights, total), c), Heaviest(other, c));
  }

  lemma {:induction false} HeaviestBounds(shards: seq<seq<string>>, c: Costing) returns (h: nat)
    requires shards != []
    ensures forall i :: 0 <= i < |shards| ==> ShardCost(shards[i], c) <= Heaviest(shards, c)
    ensures h < |shards| && ShardCost(shards[h], c) == Heaviest(shards, c)
  {
    var n := |shards| - 1;
    h := n;
    if n > 0 {
      var g := HeaviestBounds(shards[..n], c);
      if Heaviest(shards[..n], c) >= ShardCost(shards[n], c) { h := g; }
    }
  }

  lemma SameCosts(names: seq<string>, c: Costing, cost: map<string, real>)
    requires forall name :: name in names ==> name in cost && c.Of(name) == cost[name]
    ensures ShardCost(names, c) == Sum(CostList(names, cost))
  {
    assert Costs(names, c) == CostList(names, cost);
  }

  /** In the files' own costs: every returned shard is within 4/3 - 1/(3 total) of some shard of any
      other split. */
  lemma PartitionFourThirds(files: seq<string>, weights: map<string, real>, total: nat, other: seq<seq<string>>,
                            i: nat)
    returns (cost: map<string, real>, j: nat)
    requires i < total == |other| && AllNames(other) == multiset(files)
    requires forall name :: name in files && name in weights ==> weights[name] >= 0.0
    ensures FileCosts(files, weights, cost)
    ensures var shard := Shards(files, weights, total)[i];
      && j < total && (forall name :: name in shard || name in other[j] ==> name in cost)
      && WithinFourThirds(total, Sum(CostList(shard, cost)), Sum(CostList(other[j], cost)))
  {
    hide FileCosts, Heaviest, ShardCost, Sum, CostingFor, Shards, WithinFourThirds;
    var c := CostingFor(files, weights);
    cost := CostsAreFileCosts(files, weights);
    CostsAreNonNegative(files, weights);
    var shards := Shards(files, weights, total);
    EveryFileOnce(files, weights, total);
    PartitionBound(files, weights, total, other);
    var h := HeaviestBounds(shards, c);
    j := HeaviestBounds(other, c);
    NamesAreFiles(shards, i, files);
    NamesAreFiles(other, j, files);
    assert forall name :: name in files ==> name in cost by { InCost(files, weights, cost); }
    SameCosts(shards[i], c, cost);
    SameCosts(other[j], c, cost);
    LighterIsWithin(total, ShardCost(shards[i], c), Heaviest(shards, c), Heaviest(other, c));
  }

  lemma InCost(files: seq<string>, weights: map<string, real>, cost: map<string, real>)
    requires FileCosts(files, weights, cost)
    ensures forall name :: name in files ==> name in cost
  {
  }

  lemma LighterIsWithin(total: nat, load: real, heaviest: real, high: real)
    requires load <= heaviest && WithinFourThirds(total, heaviest, high)
    ensures WithinFourThirds(total, load, high)
  {
    var t := total as real;
    assert t * (heaviest - load) >= 0.0;
    assert t * heaviest == t * load + t * (heaviest - load);
  }

  lemma {:induction false} NamesAreFiles(shards: seq<seq<string>>, i: nat, files: seq<string>)
    requires i < |shards| && AllNames(shards) <= multiset(files)
    ensures forall name :: name in shards[i] ==> name in files
  {
    if i > 0 {
      NamesAreFiles(shards[1..], i - 1, files);
    } else {
      forall name | name in shards[0] ensures name in files {
        assert name in multiset(shards[0]);
        assert name in AllNames(shards);
      }
    }
  }

  lemma CostsAreNonNegative(files: seq<string>, weights: map<string, real>)
    requires forall name :: name in files && name in weights ==> weights[name] >= 0.0
    ensures forall name :: name in files ==> CostingFor(files, weights).Of(name) >= 0.0
  {
    var known := Known(files, weights);
    if known != [] {
      var s := Sort(known, RealLeq);
      forall k | 0 <= k < |s| ensures s[k] >= 0.0 {
        assert s[k] in multiset(known);
        CollectMembers(files, IsKnown(weights), Weight(weights), s[k]);
        var i :| 0 <= i < |files| && IsKnown(weights)(files[i]) && Weight(weights)(files[i]) == s[k];
      }
    }
  }

  lemma ComparedWith(files: seq<string>, c: Costing, total: nat, other: seq<seq<string>>) returns (b: seq<nat>)
    requires total > 0 && |other| == total && AllNames(other) == multiset(files)
    requires forall name :: name in files ==> c.Of(name) >= 0.0
    ensures var plan := PlanFor(files, c, total); var p := Costs(plan.names, c);
      && Heaviest(ShardsOf(plan, total), c) == Makespan(p, plan.slots, total)
      && Slots(b, |p|, total) && Heaviest(other, c) == Makespan(p, b, total)
      && NonNegative(p) && Descending(p) && Greedy(p, plan.slots, total)
  {
    var plan := PlanFor(files, c, total);
    var p := Costs(plan.names, c);
    ShardLoadsAreCosts(plan, total, c);
    PlanIsGreedy(files, c, total);
    CostsNonNegative(files, plan.names, c);
    b := AssignmentOf(plan.names, other, c);
    HeaviestIsMakespan(other, c, p, b);
  }

  lemma CostsNonNegative(files: seq<string>, names: seq<string>, c: Costing)
    requires multiset(names) == multiset(files)
    requires forall name :: name in files ==> c.Of(name) >= 0.0
    ensures NonNegative(Costs(names, c))
  {
    forall k | 0 <= k < |names| ensures c.Of(names[k]) >= 0.0 {
      assert names[k] in multiset(files);
    }
  }

  /** Balance: no two shards differ by more than the dearest file. */
  lemma PartitionSpread(files: seq<string>, weights: map<string, real>, total: nat, top: real, i: nat, j: nat)
    requires i < total && j < total && top >= 0.0
    requires forall name :: name in files ==> 0.0 <= CostingFor(files, weights).Of(name) <= top
    ensures var c := CostingFor(files, weights); var shards := Shards(files, weights, total);
      ShardCost(shards[i], c) - ShardCost(shards[j], c) <= top
  {
    var c := CostingFor(files, weights);
    var plan := PlanFor(files, c, total);
    var p := Costs(plan.names, c);
    ShardLoadsAreCosts(plan, total, c);
    PlanIsGreedy(files, c, total);
    CostsNonNegative(files, plan.names, c);
    forall k | 0 <= k < |p| ensures p[k] <= top { assert plan.names[k] in multiset(files); }
    Spread(p, plan.slots, total, |p|, top, i, j);
  }

  /** The heaviest returned shard is at most the average, plus the dearest file for all shards but one. */
  lemma PartitionListBound(files: seq<string>, weights: map<string, real>, total: nat, top: real)
    requires total > 0 && top >= 0.0
    requires forall name :: name in files ==> 0.0 <= CostingFor(files, weights).Of(name) <= top
    ensures var c := CostingFor(files, weights);
      WithinListBound(total, Heaviest(Shards(files, weights, total), c), ShardCost(files, c), top)
  {
    hide WithinListBound, CostingFor, ShardCost, Heaviest, Makespan, Sum, Greedy, NonNegative;
    var c := CostingFor(files, weights);
    var plan := PlanFor(files, c, total);
    ShardLoadsAreCosts(plan, total, c);
    PlanIsGreedy(files, c, total);
    PlanCosts(files, c, total, top);
    ListBound(Costs(plan.names, c), plan.slots, total, top);
  }

  lemma PlanCosts(files: seq<string>, c: Costing, total: nat, top: real)
    requires total > 0
    requires forall name :: name in files ==> 0.0 <= c.Of(name) <= top
    ensures var p := Costs(PlanFor(files, c, total).names, c);
      NonNegative(p) && (forall k :: 0 <= k < |p| ==> p[k] <= top) && Sum(p) == ShardCost(files, c)
  {
    hide Sum;
    var names := PlanFor(files, c, total).names;
    CostsNonNegative(files, names, c);
    forall k | 0 <= k < |names| ensures c.Of(names[k]) <= top { assert names[k] in multiset(files); }
    ShardCostPermutes(names, files, c);
  }

  // ----- `main`

  datatype MainError = NoFiles | BadArguments | EmptyShard

  // The listing mode of `main`: which files shard number `shard` runs.
  function Main(files: seq<string>, weights: map<string, real>, shard: int, total: int)
    : Result<seq<string>, MainError>
  {
    if files == [] then Err(NoFiles)
    else if !(1 <= shard <= total) then Err(BadArguments)
    else
      var shards := Shards(files, weights, total);
      if AnyEmpty(shards) then Err(EmptyShard) else Ok(shards[shard - 1])
  }

  predicate AnyEmpty(shards: seq<seq<string>>) {
    exists i :: 0 <= i < |shards| && shards[i] == []
  }

  function CostsSomething(c: Costing): string -> bool {
    (name: string) => c.Of(name) > 0.0
  }

  function Costly(files: seq<string>, c: Costing): seq<string> {
    Collect(files, CostsSomething(c), Itself)
  }

  /** When the listing succeeds: enough files that cost something, or one short with a free file
      to spare.  `main` blames the number of files, but free files can also leave a shard empty. */
  lemma MainAcceptsIff(files: seq<string>, weights: map<string, real>, shard: int, total: int)
    requires files != [] && 1 <= shard <= total
    requires forall name :: name in files ==> CostingFor(files, weights).Of(name) >= 0.0
    ensures var open := |Costly(files, CostingFor(files, weights))|;
      Main(files, weights, shard, total).Ok? <==> open >= total || (open == total - 1 && open < |files|)
  {
    var c := CostingFor(files, weights);
    var plan := PlanFor(files, c, total);
    EveryShardUsedIff(files, c, total);
    NoneEmptyIff(plan, total);
  }

  /** The listings of all shards together hold every file once, and shard 1 lists the dearest file,
      the first in text order among the dearest. */
  lemma ListingsHoldEveryFile(files: seq<string>, weights: map<string, real>, total: nat)
    requires forall k :: 1 <= k <= total ==> Main(files, weights, k, total).Ok?
    requires total > 0
    ensures AllNames(seq(total, i requires 0 <= i < total => Main(files, weights, i + 1, total).value))
      == multiset(files)
    ensures exists name, cost | FileCosts(files, weights, cost) && Dearest(files, cost, name) ::
      name in Main(files, weights, 1, total).value
  {
    hide ShardsOf, CostingFor, FileCosts, Greedy, ShardLists;
    var shards := Shards(files, weights, total);
    var listed := seq(total, i requires 0 <= i < total => Main(files, weights, i + 1, total).value);
    forall i | 0 <= i < total ensures listed[i] == shards[i] { assert Main(files, weights, i + 1, total).Ok?; }
    assert listed == shards;
    EveryFileOnce(files, weights, total);
    var cost, names, slots := PartitionIsLongestFirst(files, weights, total);
    assert Main(files, weights, 1, total).Ok?;
    assert |multiset(names)| == |names| && |multiset(files)| == |files|;
    DearestIsFirst(files, names, cost);
    FirstGoesFirst(names, cost, slots, total, shards[0]);
  }

  ghost predicate Dearest(files: seq<string>, cost: map<string, real>, name: string) {
    && (forall f :: f in files ==> f in cost) && name in files
    && forall f :: f in files ==> cost[name] > cost[f] || (cost[name] == cost[f] && TextLeq(name, f))
  }

  lemma DearestIsFirst(files: seq<string>, names: seq<string>, cost: map<string, real>)
    requires multiset(names) == multiset(files) && names != []
    requires (forall name :: name in names ==> name in cost) && PlacementOrder(names, cost)
    ensures Dearest(files, cost, names[0])
  {
    TextOrder();
    assert names[0] in multiset(files);
    forall f | f in files
      ensures f in cost && (cost[names[0]] > cost[f] || (cost[names[0]] == cost[f] && TextLeq(names[0], f))) {
      assert f in multiset(names);
      var k :| 0 <= k < |names| && names[k] == f;
      assert TextLeq(f, f);
    }
  }

  lemma FirstGoesFirst(names: seq<string>, cost: map<string, real>, slots: seq<nat>, total: nat, shard: seq<string>)
    requires names != [] && total > 0 && (forall name :: name in names ==> name in cost)
    requires Greedy(CostList(names, cost), slots, total) && ShardLists(shard, names, slots, 0)
    ensures names[0] in shard
  {
    assert Lightest(CostList(names, cost), slots, 0, total, slots[0]);
    assert Load(CostList(names, cost), slots, 0, 0) == 0.0 == Load(CostList(names, cost), slots, 0, slots[0]);
    assert slots[0] == 0;
    assert 0 in Assigned(names, slots, 0, names[0]);
    assert multiset(shard)[names[0]] == |Assigned(names, slots, 0, names[0])| > 0;
  }

  // Files that cost nothing all pile up on the first shard.
  lemma FreeFilesLeaveShardEmpty(files: seq<string>, weights: map<string, real>, shard: int, total: int)
    requires files != [] && 1 <= shard <= total && total > 1
    requires forall name :: name in files ==> name in weights && weights[name] == 0.0
    ensures Main(files, weights, shard, total) == Err(EmptyShard)
  {
    var c := CostingFor(files, weights);
    MainAcceptsIff(files, weights, shard, total);
    NothingCostly(files, c);
  }

  lemma {:induction false} NothingCostly(files: seq<string>, c: Costing)
    requires forall name :: name in files ==> c.Of(name) == 0.0
    ensures Costly(files, c) == []
  {
    if files != [] {
      assert c.Of(files[0]) == 0.0;
      NothingCostly(files[1..], c);
    }
  }

  /** Three files for two shards, and still an empty shard: the message of `main` is wrong here. */
  lemma EnoughFilesAndEmptyShard()
    ensures Main(["a.py", "b.py", "c.py"], map["a.py" := 0.0, "b.py" := 0.0, "c.py" := 0.0], 1, 2) == Err(EmptyShard)
  {
    FreeFilesLeaveShardEmpty(["a.py", "b.py", "c.py"], map["a.py" := 0.0, "b.py" := 0.0, "c.py" := 0.0], 1, 2);
  }

  lemma NoneEmptyIff(plan: Plan, total: nat)
    requires |plan.slots| == |plan.names|
    ensures AnyEmpty(ShardsOf(plan, total)) <==> !AllShardsUsed(plan.slots, total)
  {
    var shards := ShardsOf(plan, total);
    forall i | 0 <= i < total ensures shards[i] == [] <==> i !in plan.slots {
      var on := OnShard(plan.names, plan.slots, |plan.names|, i);
      OnShardEmpty(plan.names, plan.slots, |plan.names|, i);
      assert plan.slots[..|plan.names|] == plan.slots;
      assert shards[i] == Sort(on, TextLeq);
    }
  }

  lemma EveryShardUsedIff(files: seq<string>, c: Costing, total: nat)
    requires total > 0 && forall name :: name in files ==> c.Of(name) >= 0.0
    ensures var open := |Costly(files, c)|;
      AllShardsUsed(PlanFor(files, c, total).slots, total) <==> open >= total || (open == total - 1 && open < |files|)
  {
    var plan := PlanFor(files, c, total);
    PlanIsGreedy(files, c, total);
    CostsNonNegative(files, plan.names, c);
    CollectForgetsOrder(files, plan.names, CostsSomething(c), Itself);
    CostlyFirst(plan.names, c);
    NoShardEmpty(Costs(plan.names, c), plan.slots, total, |Costly(plan.names, c)|);
  }

  lemma {:induction false} OnShardEmpty(names: seq<string>, a: seq<nat>, k: nat, i: nat)
    requires k <= |names| && k <= |a|
    ensures OnShard(names, a, k, i) == [] <==> i !in a[..k]
  {
    if k > 0 {
      OnShardEmpty(names, a, k - 1, i);
      assert a[..k] == a[..k - 1] + [a[k - 1]];
    }
  }

  // In descending order the costly files come first.
  lemma {:induction false} CostlyFirst(names: seq<string>, c: Costing)
    requires Descending(Costs(names, c)) && NonNegative(Costs(names, c))
    ensures forall k :: 0 <= k < |names| ==> (Costs(names, c)[k] > 0.0 <==> k < |Costly(names, c)|)
  {
    if names != [] {
      var p, q := Costs(names, c), Costs(names[1..], c);
      assert forall k :: 0 <= k < |q| ==> q[k] == p[k + 1];
      CostlyFirst(names[1..], c);
      if p[0] == 0.0 {
        assert q == [] || q[0] == p[1] <= p[0];
        assert |Costly(names[1..], c)| == 0;
      }
      forall k | 0 <= k < |p| ensures p[k] > 0.0 <==> k < |Costly(names, c)| {
        if k > 0 { assert p[k] == q[k - 1]; }
      }
    }
  }
}
