/** `_backfill_items` of alembic/versions/0035_unified_work_queue.py: the ordinal of a queue item
    within its job, written once with a window function and once by counting. */
module WorkQueueOrdinals {
  import opened Ordering

  datatype Item = Item(id: string, job: string, createdAt: int, ordinal: int)

  // ORDER BY created_at, id
  predicate InOrder(a: Item, b: Item) {
    a.createdAt < b.createdAt || (a.createdAt == b.createdAt && TextLeq(a.id, b.id))
  }

  // other.created_at < item.created_at OR (equal AND other.id < item.id)
  predicate Before(a: Item, b: Item) {
    a.createdAt < b.createdAt || (a.createdAt == b.createdAt && TextLeq(a.id, b.id) && a.id != b.id)
  }

  function OfJob(job: string): Item -> bool {
    (item: Item) => item.job == job
  }

  function Ahead(item: Item): Item -> bool {
    (other: Item) => other.job == item.job && Before(other, item)
  }

  // PARTITION BY job_id ORDER BY created_at, id
  function JobInOrder(items: seq<Item>, job: string): seq<Item> {
    Sort(Collect(items, OfJob(job), Itself), InOrder)
  }

  function IndexOf(s: seq<Item>, item: Item): (k: nat)
    ensures k <= |s| && (item in s ==> k < |s| && s[k] == item)
  {
    if s == [] then 0 else if s[0] == item then 0 else 1 + IndexOf(s[1..], item)
  }

  // ROW_NUMBER() OVER (...) - 1
  function RowNumber(items: seq<Item>, item: Item): int {
    IndexOf(JobInOrder(items, item.job), item)
  }

  // SELECT count(*) ... WHERE other is ahead
  function CountAhead(items: seq<Item>, item: Item): int {
    |Collect(items, Ahead(item), Itself)|
  }

  function Id(item: Item): string { item.id }

  ghost predicate UniqueIds(items: seq<Item>) {
    Distinct(Column(items, Id))
  }

  // The rows of the same job that were created before row k, or at the same time with a smaller id.
  ghost function EarlierInJob(items: seq<Item>, k: nat): set<int>
    requires k < |items|
  {
    set j | 0 <= j < |items| && items[j].job == items[k].job
      && (items[j].createdAt < items[k].createdAt
          || (items[j].createdAt == items[k].createdAt && items[j].id != items[k].id
            && TextLeq(items[j].id, items[k].id)))
  }

  lemma CountIsPlaces(items: seq<Item>, k: nat)
    requires k < |items|
    ensures CountAhead(items, items[k]) == |EarlierInJob(items, k)|
  {
    CollectCounts(items, Ahead(items[k]), Itself);
    assert Places(items, Ahead(items[k])) == EarlierInJob(items, k);
  }

  class BatchScoringItems {
    var items: seq<Item>

    constructor (rows: seq<Item>)
      ensures items == rows
    {
      items := rows;
    }

    // The two UPDATE statements; either dialect writes the same ordinals.
    method BackfillOrdinals(postgresql: bool)
      requires UniqueIds(items)
      modifies this
      ensures |items| == |old(items)|
      ensures forall k :: 0 <= k < |items| ==>
        items[k] == old(items)[k].(ordinal := |EarlierInJob(old(items), k)|)
    {
      var rows := items;
      forall k | 0 <= k < |rows|
        ensures CountAhead(rows, rows[k]) == |EarlierInJob(rows, k)| { CountIsPlaces(rows, k); }
      forall k | 0 <= k < |rows| ensures RowNumber(rows, rows[k]) == CountAhead(rows, rows[k]) {
        FormsAgree(rows, k);
      }
      if postgresql {
        items := seq(|rows|, k requires 0 <= k < |rows| => rows[k].(ordinal := RowNumber(rows, rows[k])));
      } else {
        items := seq(|rows|, k requires 0 <= k < |rows| => rows[k].(ordinal := CountAhead(rows, rows[k])));
      }
    }
  }

  // ----- the two forms agree

  lemma OrderOfItems()
    ensures TotalPreorder(InOrder)
    ensures forall a, b :: Before(a, b) <==> InOrder(a, b) && !(InOrder(b, a))
  {
    TextOrder();
  }

  lemma AheadIffEarlier(s: seq<Item>, j: nat, k: nat, job: string)
    requires j < |s| && k < |s| && SortedBy(s, InOrder) && Distinct(Column(s, Id))
    requires s[j].job == s[k].job == job
    ensures Ahead(s[k])(s[j]) <==> j < k
  {
    OrderOfItems();
    if j < k {
      assert Column(s, Id)[j] != Column(s, Id)[k] && InOrder(s[j], s[k]);
    } else if k < j {
      assert InOrder(s[k], s[j]);
    }
  }

  lemma {:induction false} CollectPrefix(s: seq<Item>, k: nat, keep: Item -> bool)
    requires k <= |s| && forall j :: 0 <= j < |s| ==> (keep(s[j]) <==> j < k)
    ensures Collect(s, keep, Itself) == s[..k]
  {
    if s != [] {
      CollectPrefix(s[1..], if k == 0 then 0 else k - 1, keep);
      if k > 0 { assert s[..k] == [s[0]] + s[1..][..k - 1]; }
    }
  }

  // In a sorted list without ties, exactly the first k items are ahead of item k.
  lemma RankInSorted(s: seq<Item>, k: nat, job: string)
    requires k < |s| && SortedBy(s, InOrder) && Distinct(Column(s, Id))
    requires forall j :: 0 <= j < |s| ==> s[j].job == job
    ensures Collect(s, Ahead(s[k]), Itself) == s[..k]
  {
    forall j | 0 <= j < |s| ensures Ahead(s[k])(s[j]) <==> j < k { AheadIffEarlier(s, j, k, job); }
    CollectPrefix(s, k, Ahead(s[k]));
  }

  // Items ahead are items of the job.
  lemma {:induction false} AheadWithinJob(items: seq<Item>, item: Item)
    ensures Collect(items, Ahead(item), Itself) == Collect(Collect(items, OfJob(item.job), Itself), Ahead(item), Itself)
  {
    if items != [] {
      AheadWithinJob(items[1..], item);
      var head := Kept(items[0], OfJob(item.job), Itself);
      CollectConcat(head, Collect(items[1..], OfJob(item.job), Itself), Ahead(item), Itself);
      assert Collect(head, Ahead(item), Itself) == Kept(items[0], Ahead(item), Itself);
    }
  }

  lemma {:induction false} JobMembers(items: seq<Item>, job: string)
    ensures forall item :: item in Collect(items, OfJob(job), Itself) <==> item in items && item.job == job
  {
    if items != [] {
      JobMembers(items[1..], job);
      assert items == [items[0]] + items[1..];
    }
  }

  lemma {:induction false} JobUnique(items: seq<Item>, job: string)
    requires UniqueIds(items)
    ensures UniqueIds(Collect(items, OfJob(job), Itself))
  {
    if items != [] {
      TailUnique(items);
      JobUnique(items[1..], job);
      JobMembers(items[1..], job);
      var rest := Collect(items[1..], OfJob(job), Itself);
      forall k | 0 <= k < |rest| ensures rest[k].id != items[0].id {
        assert rest[k] in items[1..];
        OtherId(items, rest[k]);
      }
      HeadUnique(items[0], rest);
    }
  }

  lemma OtherId(items: seq<Item>, item: Item)
    requires items != [] && UniqueIds(items) && item in items[1..]
    ensures item.id != items[0].id
  {
    var j :| 0 <= j < |items| - 1 && items[1..][j] == item;
    assert Column(items, Id)[0] != Column(items, Id)[j + 1];
  }

  lemma TailUnique(items: seq<Item>)
    requires items != [] && UniqueIds(items)
    ensures UniqueIds(items[1..])
  {
    assert Column(items, Id)[1..] == Column(items[1..], Id);
  }

  lemma HeadUnique(item: Item, rest: seq<Item>)
    requires UniqueIds(rest) && forall k :: 0 <= k < |rest| ==> rest[k].id != item.id
    ensures UniqueIds([item] + rest)
  {
    assert Column([item] + rest, Id) == [item.id] + Column(rest, Id);
  }

  lemma JobFacts(items: seq<Item>, job: string)
    requires UniqueIds(items)
    ensures var s := JobInOrder(items, job);
      && SortedBy(s, InOrder) && Distinct(Column(s, Id))
      && (forall j :: 0 <= j < |s| ==> s[j].job == job && s[j] in items)
      && (forall item :: item in items && item.job == job ==> item in s)
  {
    var part := Collect(items, OfJob(job), Itself);
    var s := JobInOrder(items, job);
    OrderOfItems();
    SortSorts(part, InOrder);
    SortKeeps(part, InOrder);
    JobMembers(items, job);
    JobUnique(items, job);
    ColumnPermutes(s, part, Id);
    forall j | 0 <= j < |s| ensures s[j].job == job && s[j] in items { assert s[j] in s; }
  }

  // The rank of an item in its job, in either form, is its place in the sorted job.
  lemma RankIsPlace(items: seq<Item>, job: string, k: nat)
    requires UniqueIds(items) && k < |JobInOrder(items, job)|
    ensures var item := JobInOrder(items, job)[k];
      item.job == job && RowNumber(items, item) == k && CountAhead(items, item) == k
  {
    hide InOrder, Sort;
    var s := JobInOrder(items, job);
    var item := s[k];
    JobFacts(items, job);
    FirstIndex(s, k);
    RankInSorted(s, k, job);
    AheadWithinJob(items, item);
    CollectForgetsOrder(s, Collect(items, OfJob(job), Itself), Ahead(item), Itself);
  }

  lemma {:induction false} FirstIndex(s: seq<Item>, k: nat)
    requires Distinct(Column(s, Id)) && k < |s|
    ensures IndexOf(s, s[k]) == k
  {
    if k > 0 {
      assert Column(s, Id)[0] != Column(s, Id)[k];
      assert Column(s, Id)[1..] == Column(s[1..], Id);
      FirstIndex(s[1..], k - 1);
    }
  }

  lemma PlaceOf(items: seq<Item>, k: nat) returns (place: nat)
    requires UniqueIds(items) && k < |items|
    ensures place < |JobInOrder(items, items[k].job)| && JobInOrder(items, items[k].job)[place] == items[k]
  {
    JobFacts(items, items[k].job);
    assert items[k] in items;
    place :| 0 <= place < |JobInOrder(items, items[k].job)| && JobInOrder(items, items[k].job)[place] == items[k];
  }

  /** The window form and the counting form give every item the same ordinal. */
  lemma FormsAgree(items: seq<Item>, k: nat)
    requires UniqueIds(items) && k < |items|
    ensures RowNumber(items, items[k]) == CountAhead(items, items[k])
  {
    var place := PlaceOf(items, k);
    RankIsPlace(items, items[k].job, place);
  }

  /** Within a job the ordinals are the order of (created_at, id). */
  lemma OrdinalsFollowOrder(items: seq<Item>, j: nat, k: nat)
    requires UniqueIds(items) && j < |items| && k < |items| && items[j].job == items[k].job
    ensures Before(items[j], items[k]) <==> CountAhead(items, items[j]) < CountAhead(items, items[k])
    ensures CountAhead(items, items[j]) == CountAhead(items, items[k]) <==> items[j] == items[k]
  {
    var job := items[j].job;
    var s := JobInOrder(items, job);
    var a := PlaceOf(items, j);
    var b := PlaceOf(items, k);
    RankIsPlace(items, job, a);
    RankIsPlace(items, job, b);
    JobFacts(items, job);
    OrderOfItems();
    if a < b { assert Column(s, Id)[a] != Column(s, Id)[b] && InOrder(s[a], s[b]); }
    if b < a { assert Column(s, Id)[a] != Column(s, Id)[b] && InOrder(s[b], s[a]); }
  }

  /** Within a job of n items the ordinals are exactly 0 to n-1. */
  lemma OrdinalsAreContiguous(items: seq<Item>, job: string, k: nat)
    requires UniqueIds(items)
    ensures var n := |Collect(items, OfJob(job), Itself)|;
      && (k < n <==> exists j :: 0 <= j < |items| && items[j].job == job && CountAhead(items, items[j]) == k)
  {
    var s := JobInOrder(items, job);
    JobFacts(items, job);
    if k < |s| {
      RankIsPlace(items, job, k);
      assert s[k] in items;
      var j :| 0 <= j < |items| && items[j] == s[k];
    }
    if j :| 0 <= j < |items| && items[j].job == job && CountAhead(items, items[j]) == k {
      var place := PlaceOf(items, j);
      RankIsPlace(items, job, place);
    }
  }
}
