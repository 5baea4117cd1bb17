/** `stratified_sample` of backend/app/eval/asap.py. */
module StratifiedSample {
  import opened Wrappers
  import opened Ordering
  import opened Sums
  import opened Apportionment
  import opened Partitions

  datatype Row = Row(id: string, score: int, prompt: string) {
    function Key(): Key { (score, prompt) }
  }

  type Key = (int, string)

  datatype SampleError = SizeOutOfRange(total: nat)

  predicate KeyLeq(a: Key, b: Key) {
    a.0 < b.0 || (a.0 == b.0 && TextLeq(a.1, b.1))
  }

  predicate ById(a: Row, b: Row) { TextLeq(a.id, b.id) }

  function KeyOf(row: Row): Key { row.Key() }

  function NotExcluded(excluded: set<string>): Row -> bool {
    (row: Row) => row.id !in excluded
  }

  function Eligible(rows: seq<Row>, excluded: set<string>): seq<Row> {
    Collect(rows, NotExcluded(excluded), Itself)
  }

  function Stratum(rows: seq<Row>, key: Key): seq<Row> {
    Class(rows, key, KeyOf)
  }

  // Keys in order of first appearance.
  function FirstKeys(rows: seq<Row>): (keys: seq<Key>)
    ensures forall k :: k in keys <==> exists i :: 0 <= i < |rows| && rows[i].Key() == k
    ensures Distinct(keys)
  {
    if rows == [] then []
    else
      var init := rows[..|rows| - 1];
      assert rows == init + [rows[|rows| - 1]];
      var keys := FirstKeys(init);
      var k := rows[|rows| - 1].Key();
      if k in keys then keys else keys + [k]
  }

  function Keys(rows: seq<Row>): (keys: seq<Key>) {
    Sort(FirstKeys(rows), KeyLeq)
  }

  function Sizes(rows: seq<Row>, keys: seq<Key>): (sizes: seq<nat>)
    ensures |sizes| == |keys|
  {
    ClassSizes(rows, keys, KeyOf)
  }

  // `generator.sample(items, count)`: which members are drawn is left open.
  method Draw(items: seq<Row>, count: int) returns (drawn: seq<Row>)
    requires 0 <= count <= |items|
    ensures |drawn| == count && multiset(drawn) <= multiset(items)
  {
    drawn := items[..count];
    assert items == items[..count] + items[count..];
  }

  // The seats: `counts[key] += 1` for the first `remainder` keys.
  method Apportion(q: seq<real>, size: int) returns (counts: seq<int>)
    ensures counts == Allocate(q, size)
  {
    hide Fraction, Sort;
    counts := Floors(q);
    var order := Sort(Indices(|q|), OwedFirst(q));
    var first := Slice(order, size - SumInt(counts));
    OrderFacts(q, order);
    SliceFacts(order, size - SumInt(counts), |q|);
    for k := 0 to |first|
      invariant counts == Incremented(q, first[..k])
    {
      Increment(q, first, k);
      counts := counts[first[k] := counts[first[k]] + 1];
    }
    assert first[..|first|] == first == Winners(q, size);
    assert forall i :: 0 <= i < |q| ==> counts[i] == Allocate(q, size)[i];
  }

  ghost function Incremented(q: seq<real>, winners: seq<int>): (c: seq<int>)
    ensures |c| == |q|
  {
    seq(|q|, i requires 0 <= i < |q| => q[i].Floor + (if i in winners then 1 else 0))
  }

  lemma Increment(q: seq<real>, winners: seq<int>, k: nat)
    requires Distinct(winners) && k < |winners| && 0 <= winners[k] < |q|
    ensures Incremented(q, winners[..k + 1])
         == Incremented(q, winners[..k])[winners[k] := Incremented(q, winners[..k])[winners[k]] + 1]
  {
    assert winners[..k + 1] == winners[..k] + [winners[k]];
    assert winners[k] !in winners[..k];
  }

  lemma SliceFacts(s: seq<int>, r: int, n: nat)
    requires Distinct(s) && forall k :: 0 <= k < |s| ==> 0 <= s[k] < n
    ensures Distinct(Slice(s, r)) && forall k :: 0 <= k < |Slice(s, r)| ==> 0 <= Slice(s, r)[k] < n
  {
  }

  lemma FirstRow(rows: seq<Row>, key: Key)
    requires rows != []
    ensures Stratum(rows, key) == (if rows[0].Key() == key then [rows[0]] else []) + Stratum(rows[1..], key)
  {
    assert HasKey(key, KeyOf)(rows[0]) <==> rows[0].Key() == key;
  }

  lemma {:induction false} StratumMembers(rows: seq<Row>, key: Key, row: Row)
    ensures multiset(Stratum(rows, key))[row] == if row.Key() == key then multiset(rows)[row] else 0
  {
    if rows != [] {
      StratumMembers(rows[1..], key, row);
      FirstRow(rows, key);
      assert rows == [rows[0]] + rows[1..];
    }
  }

  // Rows drawn from one stratum all lie in it.
  lemma {:induction false} DrawnFrom(drawn: seq<Row>, key: Key, other: Key)
    requires forall i :: 0 <= i < |drawn| ==> drawn[i].Key() == key
    ensures |Stratum(drawn, other)| == if other == key then |drawn| else 0
  {
    if drawn != [] {
      DrawnFrom(drawn[1..], key, other);
      FirstRow(drawn, other);
    }
  }

  lemma DrawnKeys(drawn: seq<Row>, items: seq<Row>, rows: seq<Row>, key: Key)
    requires multiset(drawn) <= multiset(items) && multiset(items) == multiset(Stratum(rows, key))
    ensures forall i :: 0 <= i < |drawn| ==> drawn[i].Key() == key
    ensures forall row :: multiset(drawn)[row] <= if row.Key() == key then multiset(rows)[row] else 0
  {
    forall row ensures multiset(drawn)[row] <= if row.Key() == key then multiset(rows)[row] else 0 {
      StratumMembers(rows, key, row);
    }
    forall i | 0 <= i < |drawn| ensures drawn[i].Key() == key {
      assert drawn[i] in multiset(drawn);
    }
  }

  // How the finished sample relates to the eligible rows.
  ghost predicate Drawn(sample: seq<Row>, rows: seq<Row>, keys: seq<Key>, counts: seq<int>, k: nat)
    requires |counts| == |keys| && k <= |keys|
  {
    && (forall row :: multiset(sample)[row] <= if row.Key() in keys[..k] then multiset(rows)[row] else 0)
    && (forall i :: 0 <= i < |keys| ==> |Stratum(sample, keys[i])| == if i < k then counts[i] else 0)
  }

  lemma DrawnStep(sample: seq<Row>, rows: seq<Row>, keys: seq<Key>, counts: seq<int>, k: nat, drawn: seq<Row>)
    requires |counts| == |keys| && k < |keys| && Drawn(sample, rows, keys, counts, k)
    requires Distinct(keys)
    requires |drawn| == counts[k] && forall i :: 0 <= i < |drawn| ==> drawn[i].Key() == keys[k]
    requires forall row :: multiset(drawn)[row] <= if row.Key() == keys[k] then multiset(rows)[row] else 0
    ensures Drawn(sample + drawn, rows, keys, counts, k + 1)
  {
    assert keys[..k + 1] == keys[..k] + [keys[k]];
    assert keys[k] !in keys[..k];
    forall row ensures multiset(sample + drawn)[row] <= if row.Key() in keys[..k + 1] then multiset(rows)[row] else 0 {
      assert multiset(sample + drawn)[row] == multiset(sample)[row] + multiset(drawn)[row];
    }
    forall i | 0 <= i < |keys| ensures |Stratum(sample + drawn, keys[i])| == if i < k + 1 then counts[i] else 0 {
      CollectConcat(sample, drawn, HasKey(keys[i], KeyOf), Itself);
      DrawnFrom(drawn, keys[k], keys[i]);
    }
  }

  // ----- the law, on the fields of the rows alone

  ghost function EligiblePlaces(rows: seq<Row>, excluded: set<string>): set<int> {
    set i | 0 <= i < |rows| && rows[i].id !in excluded
  }

  ghost function EligibleCount(rows: seq<Row>, excluded: set<string>): nat {
    |EligiblePlaces(rows, excluded)|
  }

  // Where the rows of one score and one prompt are that are not excluded.
  ghost function FieldPlaces(rows: seq<Row>, excluded: set<string>, score: int, prompt: string): set<int> {
    set i | 0 <= i < |rows| && rows[i].id !in excluded && rows[i].score == score && rows[i].prompt == prompt
  }

  ghost function FieldCount(rows: seq<Row>, excluded: set<string>, score: int, prompt: string): nat {
    |FieldPlaces(rows, excluded, score, prompt)|
  }

  ghost function FieldQuota(rows: seq<Row>, excluded: set<string>, size: int, score: int, prompt: string): real
    requires EligibleCount(rows, excluded) > 0
  {
    (size * FieldCount(rows, excluded, score, prompt)) as real / EligibleCount(rows, excluded) as real
  }

  // Every score and prompt has its quota rounded down, or one more if the quota is fractional.
  ghost predicate QuotaRule(rows: seq<Row>, excluded: set<string>, size: int, sample: seq<Row>)
    requires EligibleCount(rows, excluded) > 0
  {
    forall score, prompt ::
      var q, n := FieldQuota(rows, excluded, size, score, prompt), FieldCount(sample, {}, score, prompt);
      n == q.Floor || (n == q.Floor + 1 && q > q.Floor as real)
  }

  // The larger fraction gets its extra seat first; among equal ones the lower score, then the prompt
  // that comes first.
  ghost predicate LargestFirst(rows: seq<Row>, excluded: set<string>, size: int, sample: seq<Row>)
    requires EligibleCount(rows, excluded) > 0
  {
    forall s, p, t, o ::
      var q, u := FieldQuota(rows, excluded, size, s, p), FieldQuota(rows, excluded, size, t, o);
      var f, g := q - q.Floor as real, u - u.Floor as real;
      && (f > g || (f == g && (s < t || (s == t && p != o && TextLeq(p, o)))))
      && FieldCount(sample, {}, t, o) > u.Floor
      ==> FieldCount(sample, {}, s, p) > q.Floor
  }

  ghost predicate ProportionalSample(rows: seq<Row>, excluded: set<string>, size: int, sample: seq<Row>)
    requires EligibleCount(rows, excluded) > 0
  {
    && |sample| == size
    && (forall i, j :: 0 <= i < j < |sample| ==> TextLeq(sample[i].id, sample[j].id))
    && multiset(sample) <= multiset(rows) && (forall i :: 0 <= i < |sample| ==> sample[i].id !in excluded)
    && QuotaRule(rows, excluded, size, sample) && LargestFirst(rows, excluded, size, sample)
  }

  lemma EligibleFacts(rows: seq<Row>, excluded: set<string>)
    ensures |Eligible(rows, excluded)| == EligibleCount(rows, excluded)
    ensures multiset(Eligible(rows, excluded)) <= multiset(rows)
    ensures forall i :: 0 <= i < |Eligible(rows, excluded)| ==> Eligible(rows, excluded)[i].id !in excluded
  {
    CollectCounts(rows, NotExcluded(excluded), Itself);
    assert Places(rows, NotExcluded(excluded)) == EligiblePlaces(rows, excluded);
    EligibleWithin(rows, excluded);
  }

  lemma {:induction false} EligibleWithin(rows: seq<Row>, excluded: set<string>)
    ensures multiset(Eligible(rows, excluded)) <= multiset(rows)
    ensures forall i :: 0 <= i < |Eligible(rows, excluded)| ==> Eligible(rows, excluded)[i].id !in excluded
  {
    if rows != [] {
      EligibleWithin(rows[1..], excluded);
      assert rows == [rows[0]] + rows[1..];
      var rest := Eligible(rows[1..], excluded);
      hide Eligible, Collect;
      assert Eligible(rows, excluded) == if rows[0].id !in excluded then [rows[0]] + rest else rest by {
        FirstEligible(rows, excluded);
      }
    }
  }

  lemma FirstEligible(rows: seq<Row>, excluded: set<string>)
    requires rows != []
    ensures var rest := Eligible(rows[1..], excluded);
      Eligible(rows, excluded) == if rows[0].id !in excluded then [rows[0]] + rest else rest
  {
  }

  // The members of a stratum, counted on the fields.
  lemma StratumCount(rows: seq<Row>, score: int, prompt: string)
    ensures |Stratum(rows, (score, prompt))| == FieldCount(rows, {}, score, prompt)
  {
    var keep := HasKey((score, prompt), KeyOf);
    CollectCounts(rows, keep, Itself);
    forall row ensures keep(row) <==> row.score == score && row.prompt == prompt {
      assert KeyOf(row) == (row.score, row.prompt);
    }
    assert Places(rows, keep) == FieldPlaces(rows, {}, score, prompt);
  }

  lemma EligibleStratumCount(rows: seq<Row>, excluded: set<string>, score: int, prompt: string)
    ensures FieldCount(Eligible(rows, excluded), {}, score, prompt) == FieldCount(rows, excluded, score, prompt)
  {
    var keep := (row: Row) => row.id !in excluded && row.score == score && row.prompt == prompt;
    CollectCounts(rows, keep, Itself);
    assert Places(rows, keep) == FieldPlaces(rows, excluded, score, prompt);
    forall row ensures keep(row) <==> NotExcluded(excluded)(row) && HasKey((score, prompt), KeyOf)(row) {
      assert KeyOf(row) == (row.score, row.prompt);
    }
    CollectTwice(rows, NotExcluded(excluded), Itself, HasKey((score, prompt), KeyOf), Itself, keep);
    StratumCount(Eligible(rows, excluded), score, prompt);
  }

  // What the method establishes about the strata.
  ghost predicate Stratified(rows: seq<Row>, excluded: set<string>, size: int, sample: seq<Row>) {
    var eligible := Eligible(rows, excluded);
    var keys := Keys(eligible); var sizes := Sizes(eligible, keys);
    && |sample| == size && SortedBy(sample, ById)
    && multiset(sample) <= multiset(eligible)
    && SumInt(sizes) == |eligible| && 0 < size <= |eligible|
    && forall i :: 0 <= i < |keys| ==> |Stratum(sample, keys[i])| == Allocation(sizes, size)[i]
  }

  // One score and prompt: either a stratum with its seats, or absent from rows and sample.
  lemma OneField(rows: seq<Row>, excluded: set<string>, size: int, sample: seq<Row>, score: int, prompt: string)
    returns (i: nat)
    requires Stratified(rows, excluded, size, sample) && EligibleCount(rows, excluded) > 0
    ensures var keys := Keys(Eligible(rows, excluded)); var sizes := Sizes(Eligible(rows, excluded), keys);
      var q, n := FieldQuota(rows, excluded, size, score, prompt), FieldCount(sample, {}, score, prompt);
      if i < |keys| then
        keys[i] == (score, prompt) && SumInt(sizes) > 0 && q == Quotas(sizes, size)[i]
          && n == Allocation(sizes, size)[i]
      else q == 0.0 && n == 0
  {
    hide Eligible, Keys, Sizes, Stratum, Allocation, Quotas, FieldQuota, SumInt, FieldCount, EligibleCount, SortedBy;
    var eligible := Eligible(rows, excluded);
    var keys := Keys(eligible);
    EligibleFacts(rows, excluded);
    KeysFacts(eligible, keys);
    StratumCount(sample, score, prompt);
    if (score, prompt) in keys {
      i :| 0 <= i < |keys| && keys[i] == (score, prompt);
      QuotaOfStratum(rows, excluded, size, i);
    } else {
      i := |keys|;
      forall k | 0 <= k < |sample| ensures sample[k].Key() != (score, prompt) {
        assert sample[k] in multiset(sample) && sample[k] in multiset(eligible);
      }
      NoSuchKey(sample, (score, prompt));
      NoQuota(rows, excluded, size, score, prompt);
    }
  }

  lemma QuotaOfStratum(rows: seq<Row>, excluded: set<string>, size: int, i: nat)
    requires i < |Keys(Eligible(rows, excluded))| && EligibleCount(rows, excluded) > 0
    requires SumInt(Sizes(Eligible(rows, excluded), Keys(Eligible(rows, excluded)))) == EligibleCount(rows, excluded)
    ensures var keys := Keys(Eligible(rows, excluded));
      FieldQuota(rows, excluded, size, keys[i].0, keys[i].1) == Quotas(Sizes(Eligible(rows, excluded), keys), size)[i]
  {
    hide Eligible, Keys, Stratum, SumInt, FieldCount, EligibleCount;
    var keys := Keys(Eligible(rows, excluded));
    SizesAre(Eligible(rows, excluded), keys);
    StratumCount(Eligible(rows, excluded), keys[i].0, keys[i].1);
    EligibleStratumCount(rows, excluded, keys[i].0, keys[i].1);
    assert (keys[i].0, keys[i].1) == keys[i];
  }

  lemma NoQuota(rows: seq<Row>, excluded: set<string>, size: int, score: int, prompt: string)
    requires EligibleCount(rows, excluded) > 0
    requires (score, prompt) !in Keys(Eligible(rows, excluded))
    ensures FieldQuota(rows, excluded, size, score, prompt) == 0.0
  {
    hide Eligible, Keys, Stratum, FieldCount, EligibleCount;
    KeysFacts(Eligible(rows, excluded), Keys(Eligible(rows, excluded)));
    NoSuchKey(Eligible(rows, excluded), (score, prompt));
    StratumCount(Eligible(rows, excluded), score, prompt);
    EligibleStratumCount(rows, excluded, score, prompt);
  }

  lemma KeysInOrder(rows: seq<Row>, i: nat, j: nat)
    requires i < |Keys(rows)| && j < |Keys(rows)|
    ensures var a, b := Keys(rows)[i], Keys(rows)[j];
      a.0 < b.0 || (a.0 == b.0 && a.1 != b.1 && TextLeq(a.1, b.1)) ==> i < j
  {
    hide FirstKeys;
    TextOrder();
    SortSorts(FirstKeys(rows), KeyLeq);
    if j < i { assert KeyLeq(Keys(rows)[j], Keys(rows)[i]); }
  }

  lemma StratifiedIsProportional(rows: seq<Row>, excluded: set<string>, size: int, sample: seq<Row>)
    requires Stratified(rows, excluded, size, sample)
    ensures EligibleCount(rows, excluded) > 0 && ProportionalSample(rows, excluded, size, sample)
  {
    EligibleFacts(rows, excluded);
    hide Eligible, Keys, Sizes, Stratum, Allocation, SumInt, FieldCount, EligibleCount, FieldQuota;
    var eligible := Eligible(rows, excluded);
    var sizes := Sizes(eligible, Keys(eligible));
    forall i, j | 0 <= i < j < |sample| ensures TextLeq(sample[i].id, sample[j].id) {
      assert ById(sample[i], sample[j]);
    }
    forall i | 0 <= i < |sample| ensures sample[i].id !in excluded {
      assert sample[i] in multiset(sample) && sample[i] in multiset(eligible);
    }
    Feasible(sizes, size);
    forall s, p ensures
      var q, n := FieldQuota(rows, excluded, size, s, p), FieldCount(sample, {}, s, p);
      n == q.Floor || (n == q.Floor + 1 && q > q.Floor as real) {
      var i := OneField(rows, excluded, size, sample, s, p);
    }
    forall s, p, t, o
      ensures
        var q, u := FieldQuota(rows, excluded, size, s, p), FieldQuota(rows, excluded, size, t, o);
        var f, g := q - q.Floor as real, u - u.Floor as real;
        && (f > g || (f == g && (s < t || (s == t && p != o && TextLeq(p, o)))))
        && FieldCount(sample, {}, t, o) > u.Floor
        ==> FieldCount(sample, {}, s, p) > q.Floor {
      ExtraInOrder(rows, excluded, size, sample, s, p, t, o);
    }
  }

  lemma ExtraInOrder(rows: seq<Row>, excluded: set<string>, size: int, sample: seq<Row>,
                     s: int, p: string, t: int, o: string)
    requires Stratified(rows, excluded, size, sample) && EligibleCount(rows, excluded) > 0
    ensures
      var q, u := FieldQuota(rows, excluded, size, s, p), FieldQuota(rows, excluded, size, t, o);
      var f, g := q - q.Floor as real, u - u.Floor as real;
      && (f > g || (f == g && (s < t || (s == t && p != o && TextLeq(p, o)))))
      && FieldCount(sample, {}, t, o) > u.Floor
      ==> FieldCount(sample, {}, s, p) > q.Floor
  {
    hide Eligible, Keys, Sizes, Stratum, Allocation, SumInt, FieldCount, EligibleCount, FieldQuota, TextLeq;
    var eligible := Eligible(rows, excluded);
    var keys := Keys(eligible);
    var sizes := Sizes(eligible, keys);
    var i := OneField(rows, excluded, size, sample, s, p);
    var j := OneField(rows, excluded, size, sample, t, o);
    Feasible(sizes, size);
    if i < |keys| && j < |keys| {
      KeysInOrder(eligible, i, j);
      LargestRemaindersFirst(sizes, size, i, j);
    }
  }

  method StratifiedSample(rows: seq<Row>, size: int, excluded: set<string>)
    returns (r: Result<seq<Row>, SampleError>)
    ensures r.Err? <==> size <= 0 || size > EligibleCount(rows, excluded)
    ensures r.Ok? ==> EligibleCount(rows, excluded) > 0 && ProportionalSample(rows, excluded, size, r.value)
  {
    hide Eligible, FirstKeys, Stratum, Sort, Allocation, Quotas, SumInt, Drawn, EligibleCount, ProportionalSample;
    EligibleFacts(rows, excluded);
    var order, strata := GroupRows(rows, excluded);
    ghost var eligible := Eligible(rows, excluded);
    var keys := Sort(order, KeyLeq);
    assert keys == Keys(eligible);
    KeysFacts(eligible, keys);
    var sizes := seq(|keys|, i requires 0 <= i < |keys| => |strata[keys[i]]|);
    SizesAre(eligible, keys);
    assert sizes == Sizes(eligible, keys);
    ClassesAddUp(eligible, keys, KeyOf);
    var total := SumInt(sizes);
    if size <= 0 || size > total { return Err(SizeOutOfRange(total)); }
    var counts := Apportion(Quotas(sizes, size), size);
    assert counts == Allocation(sizes, size) by { AllocationUnfolds(sizes, size); }
    Feasible(sizes, size);
    var sample := DrawAll(eligible, keys, strata, counts);
    SortedSample(sample, eligible, keys, counts);
    r := Ok(Sort(sample, ById));
    StratifiedIsProportional(rows, excluded, size, r.value);
  }

  lemma SizesAre(rows: seq<Row>, keys: seq<Key>)
    ensures forall i :: 0 <= i < |keys| ==> Sizes(rows, keys)[i] == |Stratum(rows, keys[i])|
  {
  }

  lemma AllocationUnfolds(sizes: seq<nat>, size: int)
    requires SumInt(sizes) > 0
    ensures Allocation(sizes, size) == Allocate(Quotas(sizes, size), size)
  {
  }

  lemma SortedSample(sample: seq<Row>, rows: seq<Row>, keys: seq<Key>, counts: seq<int>)
    requires |counts| == |keys| && Drawn(sample, rows, keys, counts, |keys|)
    ensures var sorted := Sort(sample, ById);
      && |sorted| == |sample| && SortedBy(sorted, ById)
      && multiset(sorted) <= multiset(rows)
      && forall i :: 0 <= i < |keys| ==> |Stratum(sorted, keys[i])| == counts[i]
  {
    TextOrder();
    SortSorts(sample, ById);
    forall i | 0 <= i < |keys| ensures |Stratum(Sort(sample, ById), keys[i])| == counts[i] {
      CollectForgetsOrder(Sort(sample, ById), sample, HasKey(keys[i], KeyOf), Itself);
    }
  }

  ghost predicate Grouped(order: seq<Key>, strata: map<Key, seq<Row>>, rows: seq<Row>) {
    && order == FirstKeys(rows)
    && (forall key :: key in strata <==> key in order)
    && (forall key :: key in strata ==> strata[key] == Stratum(rows, key))
  }

  // `strata[(row["score"], row["prompt_name"])].append(row)`
  method AddRow(order: seq<Key>, strata: map<Key, seq<Row>>, row: Row, ghost rows: seq<Row>)
    returns (order': seq<Key>, strata': map<Key, seq<Row>>)
    requires Grouped(order, strata, rows)
    ensures Grouped(order', strata', rows + [row])
  {
    hide FirstKeys, Stratum;
    var key := row.Key();
    Appended(rows, row);
    if key in strata {
      order', strata' := order, strata[key := strata[key] + [row]];
    } else {
      order', strata' := order + [key], strata[key := [row]];
    }
  }

  method GroupRows(rows: seq<Row>, excluded: set<string>) returns (order: seq<Key>, strata: map<Key, seq<Row>>)
    ensures Grouped(order, strata, Eligible(rows, excluded))
  {
    order, strata := [], map[];
    for k := 0 to |rows|
      invariant Grouped(order, strata, Eligible(rows[..k], excluded))
    {
      ghost var eligible := Eligible(rows[..k], excluded);
      OneRow(rows, k, excluded);
      if rows[k].id !in excluded {
        order, strata := AddRow(order, strata, rows[k], eligible);
      }
    }
    assert rows[..|rows|] == rows;
  }

  lemma OneRow(rows: seq<Row>, k: nat, excluded: set<string>)
    requires k < |rows|
    ensures Eligible(rows[..k + 1], excluded)
         == if rows[k].id !in excluded then Eligible(rows[..k], excluded) + [rows[k]] else Eligible(rows[..k], excluded)
  {
    assert rows[..k + 1] == rows[..k] + [rows[k]];
    CollectConcat(rows[..k], [rows[k]], NotExcluded(excluded), Itself);
    var last := Collect([rows[k]], NotExcluded(excluded), Itself);
    assert last == if rows[k].id !in excluded then [rows[k]] else [];
    if rows[k].id in excluded { assert Eligible(rows[..k], excluded) + [] == Eligible(rows[..k], excluded); }
  }

  lemma Appended(rows: seq<Row>, row: Row)
    ensures var keys := FirstKeys(rows);
      FirstKeys(rows + [row]) == if row.Key() in keys then keys else keys + [row.Key()]
    ensures forall key :: Stratum(rows + [row], key) == Stratum(rows, key) + (if row.Key() == key then [row] else [])
    ensures row.Key() !in FirstKeys(rows) ==> Stratum(rows, row.Key()) == []
  {
    assert (rows + [row])[..|rows|] == rows;
    forall key ensures Stratum(rows + [row], key) == Stratum(rows, key) + (if row.Key() == key then [row] else []) {
      CollectConcat(rows, [row], HasKey(key, KeyOf), Itself);
      assert Stratum([row], key) == if row.Key() == key then [row] else [];
    }
    NoSuchKey(rows, row.Key());
  }

  lemma {:induction false} NoSuchKey(rows: seq<Row>, key: Key)
    ensures (forall i :: 0 <= i < |rows| ==> rows[i].Key() != key) ==> Stratum(rows, key) == []
  {
    if rows != [] {
      NoSuchKey(rows[1..], key);
      FirstRow(rows, key);
    }
  }

  lemma KeysFacts(rows: seq<Row>, keys: seq<Key>)
    requires keys == Keys(rows)
    ensures Distinct(keys)
    ensures forall k :: k in keys <==> k in FirstKeys(rows)
    ensures forall i :: 0 <= i < |rows| ==> rows[i].Key() in keys
  {
    SortKeeps(FirstKeys(rows), KeyLeq);
  }

  // `sample.extend(generator.sample(items, counts[key]))` for every key.
  method DrawAll(ghost eligible: seq<Row>, keys: seq<Key>, strata: map<Key, seq<Row>>, counts: seq<int>)
    returns (sample: seq<Row>)
    requires |counts| == |keys| && Distinct(keys)
    requires forall i :: 0 <= i < |keys| ==> keys[i] in strata && strata[keys[i]] == Stratum(eligible, keys[i])
    requires forall i :: 0 <= i < |keys| ==> 0 <= counts[i] <= |strata[keys[i]]|
    ensures Drawn(sample, eligible, keys, counts, |keys|)
    ensures |sample| == SumInt(counts)
  {
    sample := [];
    for k := 0 to |keys|
      invariant Drawn(sample, eligible, keys, counts, k)
      invariant |sample| == SumInt(counts[..k])
    {
      var items := Sort(strata[keys[k]], ById);
      var drawn := Draw(items, counts[k]);
      DrawnKeys(drawn, items, eligible, keys[k]);
      DrawnStep(sample, eligible, keys, counts, k, drawn);
      assert counts[..k + 1][..k] == counts[..k];
      sample := sample + drawn;
    }
    assert counts[..|keys|] == counts;
  }

  /** With distinct ids in the table, the sample has distinct ids, none of them excluded. */
  lemma SampleIsDistinct(rows: seq<Row>, excluded: set<string>, sample: seq<Row>)
    requires multiset(sample) <= multiset(Eligible(rows, excluded))
    requires forall i, j :: 0 <= i < j < |rows| ==> rows[i].id != rows[j].id
    ensures forall i, j :: 0 <= i < j < |sample| ==> sample[i].id != sample[j].id
    ensures forall i :: 0 <= i < |sample| ==> sample[i] in rows && sample[i].id !in excluded
  {
    forall row ensures row in sample ==> row in rows && row.id !in excluded && multiset(sample)[row] <= 1 {
      assert row in sample <==> row in multiset(sample);
      EligibleMembers(rows, excluded, row);
    }
    DistinctFromCounts(sample);
    forall i, j | 0 <= i < j < |sample| ensures sample[i].id != sample[j].id {
      assert sample[i] in sample && sample[j] in sample;
      var s :| 0 <= s < |rows| && rows[s] == sample[i];
      var t :| 0 <= t < |rows| && rows[t] == sample[j];
    }
  }

  lemma {:induction false} EligibleMembers(rows: seq<Row>, excluded: set<string>, row: Row)
    requires forall i, j :: 0 <= i < j < |rows| ==> rows[i].id != rows[j].id
    ensures multiset(Eligible(rows, excluded))[row] == if row in rows && row.id !in excluded then 1 else 0
  {
    if rows != [] {
      var tail := rows[1..];
      assert rows == [rows[0]] + tail;
      forall t | 0 <= t < |tail| ensures tail[t].id != rows[0].id { assert tail[t] == rows[t + 1]; }
      EligibleMembers(tail, excluded, row);
    }
  }
}
