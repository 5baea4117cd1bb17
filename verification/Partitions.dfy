/** Splitting the rows of a table into classes by a key. */
module Partitions {
  import opened Ordering
  import opened Sums

  function HasKey<T, K(==)>(key: K, keyOf: T -> K): T -> bool {
    (row: T) => keyOf(row) == key
  }

  function Class<T, K(==)>(rows: seq<T>, key: K, keyOf: T -> K): seq<T> {
    Collect(rows, HasKey(key, keyOf), Itself)
  }

  function ClassSizes<T, K(==)>(rows: seq<T>, keys: seq<K>, keyOf: T -> K): (sizes: seq<nat>)
    ensures |sizes| == |keys|
  {
    seq(|keys|, i requires 0 <= i < |keys| => |Class(rows, keys[i], keyOf)|)
  }

  /** Every row is in exactly one class: the sizes add up. */
  lemma {:induction false} ClassesAddUp<T, K>(rows: seq<T>, keys: seq<K>, keyOf: T -> K)
    requires Distinct(keys)
    requires forall i :: 0 <= i < |rows| ==> keyOf(rows[i]) in keys
    ensures SumInt(ClassSizes(rows, keys, keyOf)) == |rows|
  {
    if rows == [] {
      NoClasses(keys, keyOf);
    } else {
      ClassesAddUp(rows[1..], keys, keyOf);
      assert keyOf(rows[0]) in keys;
      var t :| 0 <= t < |keys| && keys[t] == keyOf(rows[0]);
      OneMore(rows, keys, keyOf, t);
    }
  }

  lemma {:induction false} NoClasses<T, K>(keys: seq<K>, keyOf: T -> K)
    ensures SumInt(ClassSizes([], keys, keyOf)) == 0
  {
    if keys != [] {
      NoClasses(keys[..|keys| - 1], keyOf);
      assert ClassSizes([], keys, keyOf)[..|keys| - 1] == ClassSizes([], keys[..|keys| - 1], keyOf);
    }
  }

  lemma OneMore<T, K>(rows: seq<T>, keys: seq<K>, keyOf: T -> K, t: nat)
    requires rows != [] && t < |keys| && keys[t] == keyOf(rows[0]) && Distinct(keys)
    ensures SumInt(ClassSizes(rows, keys, keyOf)) == SumInt(ClassSizes(rows[1..], keys, keyOf)) + 1
  {
    var s := ClassSizes(rows[1..], keys, keyOf);
    forall i | 0 <= i < |keys| ensures ClassSizes(rows, keys, keyOf)[i] == if i == t then s[i] + 1 else s[i] {
      assert |Class(rows, keys[i], keyOf)| == |Kept(rows[0], HasKey(keys[i], keyOf), Itself)|
        + |Class(rows[1..], keys[i], keyOf)|;
    }
    assert ClassSizes(rows, keys, keyOf) == s[t := s[t] + 1];
    SumChanged(s, t, s[t] + 1);
  }
}
