/** The built-in `sorted`, and what the rest of the model needs to know about it:
    it permutes, it orders, and under an antisymmetric order its result depends
    only on the multiset of its input. */
module Ordering {

  ghost predicate TotalPreorder<T(!new)>(leq: (T, T) -> bool) {
    && (forall x, y :: leq(x, y) || leq(y, x))
    && (forall x, y, z :: leq(x, y) && leq(y, z) ==> leq(x, z))
  }

  ghost predicate Antisymmetric<T(!new)>(leq: (T, T) -> bool) {
    forall x, y :: leq(x, y) && leq(y, x) ==> x == y
  }

  ghost predicate SortedBy<T>(s: seq<T>, leq: (T, T) -> bool) {
    forall i, j :: 0 <= i < j < |s| ==> leq(s[i], s[j])
  }

  function Insert<T>(x: T, s: seq<T>, leq: (T, T) -> bool): (r: seq<T>)
    ensures multiset(r) == multiset{x} + multiset(s)
  {
    if s == [] then [x]
    else if leq(x, s[0]) then [x] + s
    else
      assert s == [s[0]] + s[1..];
      [s[0]] + Insert(x, s[1..], leq)
  }

  // Stable: an element goes in front of the equal ones that came after it.
  function Sort<T>(s: seq<T>, leq: (T, T) -> bool): (r: seq<T>)
    ensures multiset(r) == multiset(s)
    ensures |r| == |s|
  {
    if s == [] then []
    else
      assert s == [s[0]] + s[1..];
      var r := Insert(s[0], Sort(s[1..], leq), leq);
      assert |multiset(r)| == |r|;
      r
  }

  lemma {:induction false} InsertSorted<T(!new)>(x: T, s: seq<T>, leq: (T, T) -> bool)
    requires TotalPreorder(leq) && SortedBy(s, leq)
    ensures SortedBy(Insert(x, s, leq), leq)
  {
    if s != [] && !leq(x, s[0]) {
      InsertSorted(x, s[1..], leq);
      var t := Insert(x, s[1..], leq);
      forall j | 0 <= j < |t| ensures leq(s[0], t[j]) {
        assert t[j] in multiset(t);
        assert t[j] == x || t[j] in s[1..];
      }
    } else if s != [] {
      forall j | 0 <= j < |s| ensures leq(x, s[j]) { }
    }
  }

  lemma {:induction false} SortSorts<T(!new)>(s: seq<T>, leq: (T, T) -> bool)
    requires TotalPreorder(leq)
    ensures SortedBy(Sort(s, leq), leq)
  {
    if s != [] {
      SortSorts(s[1..], leq);
      InsertSorted(s[0], Sort(s[1..], leq), leq);
    }
  }

  lemma NotAfter<T>(s: seq<T>, leq: (T, T) -> bool, a: nat, b: nat)
    requires SortedBy(s, leq) && a < |s| && b < |s| && !leq(s[b], s[a])
    ensures a <= b
  {
  }

  lemma HeadIsLeast<T(!new)>(s: seq<T>, x: T, leq: (T, T) -> bool)
    requires TotalPreorder(leq) && SortedBy(s, leq) && x in multiset(s)
    ensures s != [] && leq(s[0], x)
  {
    assert x in s;
    var k :| 0 <= k < |s| && s[k] == x;
    assert leq(x, x);
  }

  // No two different elements of s are equivalent under leq.
  ghost predicate AntisymmetricOn<T(!new)>(s: multiset<T>, leq: (T, T) -> bool) {
    forall x, y :: x in s && y in s && leq(x, y) && leq(y, x) ==> x == y
  }

  lemma Tied<T(!new)>(s: seq<T>, x: T, y: T, leq: (T, T) -> bool)
    requires AntisymmetricOn(multiset(s), leq) && x in multiset(s) && y in multiset(s) && leq(x, y) && leq(y, x)
    ensures x == y
  {
  }

  lemma TailSorted<T(!new)>(s: seq<T>, leq: (T, T) -> bool)
    requires s != [] && SortedBy(s, leq)
    ensures SortedBy(s[1..], leq)
    ensures AntisymmetricOn(multiset(s), leq) ==> AntisymmetricOn(multiset(s[1..]), leq)
  {
    assert s == [s[0]] + s[1..];
    assert multiset(s[1..]) <= multiset(s);
  }

  lemma {:induction false} SortedUnique<T(!new)>(a: seq<T>, b: seq<T>, leq: (T, T) -> bool)
    requires TotalPreorder(leq) && AntisymmetricOn(multiset(a), leq)
    requires SortedBy(a, leq) && SortedBy(b, leq)
    requires multiset(a) == multiset(b)
    ensures a == b
  {
    hide SortedBy, AntisymmetricOn;
    assert |multiset(a)| == |a| && |multiset(b)| == |b|;
    if a != [] {
      assert a[0] in multiset(a) && b[0] in multiset(b);
      HeadIsLeast(a, b[0], leq);
      HeadIsLeast(b, a[0], leq);
      Tied(a, a[0], b[0], leq);
      assert a == [a[0]] + a[1..] && b == [a[0]] + b[1..];
      assert multiset(a[1..]) == multiset(a) - multiset{a[0]} == multiset(b[1..]);
      TailSorted(a, leq);
      TailSorted(b, leq);
      SortedUnique(a[1..], b[1..], leq);
    }
  }

  /** Sorting forgets the order of its input, when no two different elements tie. */
  lemma SortForgetsOrderOn<T(!new)>(a: seq<T>, b: seq<T>, leq: (T, T) -> bool)
    requires TotalPreorder(leq) && AntisymmetricOn(multiset(a), leq)
    requires multiset(a) == multiset(b)
    ensures Sort(a, leq) == Sort(b, leq)
  {
    SortSorts(a, leq);
    SortSorts(b, leq);
    SortedUnique(Sort(a, leq), Sort(b, leq), leq);
  }

  lemma SortForgetsOrder<T(!new)>(a: seq<T>, b: seq<T>, leq: (T, T) -> bool)
    requires TotalPreorder(leq) && Antisymmetric(leq)
    requires multiset(a) == multiset(b)
    ensures Sort(a, leq) == Sort(b, leq)
  {
    SortForgetsOrderOn(a, b, leq);
  }

  function Itself<T>(x: T): T { x }

  // `[f(x) for x in s if keep(x)]`
  function Collect<T, U>(s: seq<T>, keep: T -> bool, f: T -> U): (r: seq<U>)
    ensures |r| <= |s|
  {
    if s == [] then []
    else Kept(s[0], keep, f) + Collect(s[1..], keep, f)
  }

  function Kept<T, U>(x: T, keep: T -> bool, f: T -> U): (r: seq<U>)
    ensures |r| <= 1
  {
    if keep(x) then [f(x)] else []
  }

  lemma {:induction false} CollectConcat<T, U>(a: seq<T>, b: seq<T>, keep: T -> bool, f: T -> U)
    ensures Collect(a + b, keep, f) == Collect(a, keep, f) + Collect(b, keep, f)
  {
    if a == [] {
      assert a + b == b;
    } else {
      var x, rest := a[0], a[1..];
      var ab := a + b;
      assert ab[0] == x && ab[1..] == rest + b;
      CollectConcat(rest, b, keep, f);
      Associative(Kept(x, keep, f), Collect(rest, keep, f), Collect(b, keep, f));
    }
  }

  lemma Associative<U>(x: seq<U>, y: seq<U>, z: seq<U>)
    ensures x + (y + z) == (x + y) + z
  {
  }

  // An element of both sequences can be cut out of the second.
  lemma CutOut<T>(a: seq<T>, b: seq<T>) returns (j: nat)
    requires a != [] && multiset(a) == multiset(b)
    ensures j < |b| && b[j] == a[0] && b == b[..j] + [b[j]] + b[j + 1..]
    ensures multiset(a[1..]) == multiset(b[..j] + b[j + 1..])
  {
    assert a[0] in multiset(b);
    j :| 0 <= j < |b| && b[j] == a[0];
    assert a == [a[0]] + a[1..] && b == b[..j] + [b[j]] + b[j + 1..];
    assert multiset(b[..j] + b[j + 1..]) == multiset(b) - multiset{b[j]};
  }

  lemma CollectCut<T, U>(s: seq<T>, j: nat, keep: T -> bool, f: T -> U)
    requires j < |s|
    ensures multiset(Collect(s, keep, f))
         == multiset(Kept(s[j], keep, f)) + multiset(Collect(s[..j] + s[j + 1..], keep, f))
  {
    var tail := s[j..];
    assert s == s[..j] + tail && tail[1..] == s[j + 1..];
    CollectConcat(s[..j], tail, keep, f);
    CollectConcat(s[..j], s[j + 1..], keep, f);
  }

  /** Filtering and mapping forget the order too, up to the order of the result. */
  lemma {:induction false} CollectForgetsOrder<T, U>(a: seq<T>, b: seq<T>, keep: T -> bool, f: T -> U)
    requires multiset(a) == multiset(b)
    ensures multiset(Collect(a, keep, f)) == multiset(Collect(b, keep, f))
    ensures |Collect(a, keep, f)| == |Collect(b, keep, f)|
    decreases |a|
  {
    var ca, cb := Collect(a, keep, f), Collect(b, keep, f);
    assert |multiset(a)| == |a| && |multiset(b)| == |b|;
    if a != [] {
      var j := CutOut(a, b);
      CollectForgetsOrder(a[1..], b[..j] + b[j + 1..], keep, f);
      CollectCut(b, j, keep, f);
    }
    assert multiset(ca) == multiset(cb);
    assert |multiset(ca)| == |ca| && |multiset(cb)| == |cb|;
  }

  // ----- sequences without repetition

  ghost predicate Distinct<T>(s: seq<T>) {
    forall i, j :: 0 <= i < j < |s| ==> s[i] != s[j]
  }

  lemma Twice<T>(s: seq<T>, i: nat, j: nat)
    requires i < j < |s| && s[i] == s[j]
    ensures multiset(s)[s[i]] >= 2
  {
    assert s == s[..i] + [s[i]] + s[i + 1..j] + [s[i]] + s[j + 1..];
  }

  lemma {:induction false} OnceEach<T>(s: seq<T>)
    requires Distinct(s)
    ensures forall x :: multiset(s)[x] <= 1
  {
    if s != [] {
      var init, last := s[..|s| - 1], s[|s| - 1];
      OnceEach(init);
      assert s == init + [last];
      assert last !in init;
    }
  }

  lemma DistinctFromCounts<T>(s: seq<T>)
    requires forall x :: x in s ==> multiset(s)[x] <= 1
    ensures Distinct(s)
  {
    forall i, j | 0 <= i < j < |s| ensures s[i] != s[j] {
      if s[i] == s[j] {
        Twice(s, i, j);
        assert false;
      }
    }
  }

  lemma PermutationDistinct<T>(a: seq<T>, b: seq<T>)
    requires Distinct(a) && multiset(a) == multiset(b)
    ensures Distinct(b)
  {
    OnceEach(a);
    DistinctFromCounts(b);
  }

  lemma SortKeeps<T>(s: seq<T>, leq: (T, T) -> bool)
    ensures forall x :: x in Sort(s, leq) <==> x in s
    ensures Distinct(s) ==> Distinct(Sort(s, leq))
  {
    var r := Sort(s, leq);
    forall x ensures x in r <==> x in s { assert x in multiset(r) <==> x in multiset(s); }
    if Distinct(s) { PermutationDistinct(s, r); }
  }

  // ----- one column of a table

  function Column<T, U>(rows: seq<T>, f: T -> U): (c: seq<U>)
    ensures |c| == |rows| && forall k :: 0 <= k < |rows| ==> c[k] == f(rows[k])
  {
    seq(|rows|, k requires 0 <= k < |rows| => f(rows[k]))
  }

  lemma {:induction false} CollectMembers<T, U>(s: seq<T>, keep: T -> bool, f: T -> U, u: U)
    ensures u in Collect(s, keep, f) <==> exists i :: 0 <= i < |s| && keep(s[i]) && f(s[i]) == u
  {
    if s != [] {
      CollectMembers(s[1..], keep, f, u);
      if i :| 0 <= i < |s| && keep(s[i]) && f(s[i]) == u {
        if i > 0 { assert s[1..][i - 1] == s[i]; }
      }
    }
  }

  ghost function Places<T>(s: seq<T>, keep: T -> bool): set<int> {
    set i | 0 <= i < |s| && keep(s[i])
  }

  /** Filtering keeps as many elements as there are places that pass the filter. */
  lemma {:induction false} CollectCounts<T, U>(s: seq<T>, keep: T -> bool, f: T -> U)
    ensures |Collect(s, keep, f)| == |Places(s, keep)|
  {
    if s != [] {
      var n := |s| - 1;
      CollectCounts(s[..n], keep, f);
      assert s == s[..n] + [s[n]];
      CollectConcat(s[..n], [s[n]], keep, f);
      CollectOne(s[n], keep, f);
      assert Places(s, keep) == Places(s[..n], keep) + (if keep(s[n]) then {n} else {});
    }
  }

  lemma CollectOne<T, U>(x: T, keep: T -> bool, f: T -> U)
    ensures Collect([x], keep, f) == Kept(x, keep, f)
  {
    assert Kept(x, keep, f) + [] == Kept(x, keep, f);
  }

  /** Filtering a filtered list is filtering by both conditions. */
  lemma {:induction false} CollectTwice<T, U, V>(s: seq<T>, keep: T -> bool, f: T -> U, also: U -> bool, g: U -> V,
                                                 both: T -> bool)
    requires forall x :: both(x) <==> keep(x) && also(f(x))
    ensures |Collect(Collect(s, keep, f), also, g)| == |Collect(s, both, Itself)|
  {
    if s != [] {
      CollectTwice(s[1..], keep, f, also, g, both);
      CollectConcat(Kept(s[0], keep, f), Collect(s[1..], keep, f), also, g);
      if keep(s[0]) { CollectOne(f(s[0]), also, g); }
    }
  }

  predicate Always<T>(x: T) { true }

  lemma {:induction false} ColumnIsCollect<T, U>(rows: seq<T>, f: T -> U)
    ensures Column(rows, f) == Collect(rows, Always, f)
  {
    if rows != [] {
      ColumnIsCollect(rows[1..], f);
      assert Column(rows, f) == [f(rows[0])] + Column(rows[1..], f);
    }
  }

  lemma ColumnPermutes<T, U>(a: seq<T>, b: seq<T>, f: T -> U)
    requires multiset(a) == multiset(b)
    ensures multiset(Column(a, f)) == multiset(Column(b, f))
    ensures forall u :: u in Column(a, f) <==> u in Column(b, f)
    ensures Distinct(Column(a, f)) <==> Distinct(Column(b, f))
  {
    ColumnIsCollect(a, f);
    ColumnIsCollect(b, f);
    CollectForgetsOrder(a, b, Always, f);
    forall u ensures u in Column(a, f) <==> u in Column(b, f) {
      assert u in multiset(Column(a, f)) <==> u in multiset(Column(b, f));
    }
    if Distinct(Column(a, f)) { PermutationDistinct(Column(a, f), Column(b, f)); }
    if Distinct(Column(b, f)) { PermutationDistinct(Column(b, f), Column(a, f)); }
  }

  predicate RealLeq(x: real, y: real) { x <= y }

  /** Code-point order, the order of Python's strings. */
  predicate TextLeq(a: string, b: string) {
    a == [] || (b != [] && (a[0] < b[0] || (a[0] == b[0] && TextLeq(a[1..], b[1..]))))
  }

  lemma {:induction false} TextTotal(a: string, b: string)
    ensures TextLeq(a, b) || TextLeq(b, a)
    ensures TextLeq(a, b) && TextLeq(b, a) ==> a == b
  {
    if a != [] && b != [] && a[0] == b[0] {
      TextTotal(a[1..], b[1..]);
      assert a == [a[0]] + a[1..] && b == [b[0]] + b[1..];
    }
  }

  lemma {:induction false} TextTransitive(a: string, b: string, c: string)
    requires TextLeq(a, b) && TextLeq(b, c)
    ensures TextLeq(a, c)
  {
    if a != [] && b != [] && c != [] && a[0] == b[0] == c[0] {
      TextTransitive(a[1..], b[1..], c[1..]);
    }
  }

  lemma TextOrder()
    ensures TotalPreorder(TextLeq) && Antisymmetric(TextLeq)
  {
    forall a, b ensures (TextLeq(a, b) || TextLeq(b, a)) && (TextLeq(a, b) && TextLeq(b, a) ==> a == b) {
      TextTotal(a, b);
    }
    forall a, b, c | TextLeq(a, b) && TextLeq(b, c) ensures TextLeq(a, c) {
      TextTransitive(a, b, c);
    }
  }

  // a is a prefix of b, or has the smaller character at the first place where they differ.
  ghost predicate Precedes(a: string, b: string) {
    exists k :: 0 <= k <= |a| && k <= |b| && a[..k] == b[..k] && (k == |a| || (k < |b| && a[k] < b[k]))
  }

  /** The recursive order on strings is the lexicographic one. */
  lemma {:induction false} TextLeqIsPrecedes(a: string, b: string)
    ensures TextLeq(a, b) <==> Precedes(a, b)
  {
    if a == [] {
      assert a[..0] == b[..0];
    } else if b != [] {
      if a[0] < b[0] {
        assert a[..0] == b[..0];
      } else if a[0] == b[0] {
        TextLeqIsPrecedes(a[1..], b[1..]);
        if Precedes(a[1..], b[1..]) {
          var k :| 0 <= k <= |a| - 1 && k <= |b| - 1 && a[1..][..k] == b[1..][..k]
            && (k == |a| - 1 || (k < |b| - 1 && a[1..][k] < b[1..][k]));
          assert a[..k + 1] == [a[0]] + a[1..][..k] && b[..k + 1] == [b[0]] + b[1..][..k];
        }
        if k :| 0 <= k <= |a| && k <= |b| && a[..k] == b[..k] && (k == |a| || (k < |b| && a[k] < b[k])) {
          assert k > 0;
          assert a[1..][..k - 1] == a[..k][1..] == b[..k][1..] == b[1..][..k - 1];
        }
      } else {
        forall k | 0 < k <= |a| && k <= |b| ensures a[..k] != b[..k] { assert a[..k][0] != b[..k][0]; }
      }
    }
  }
}
