/** Sorting a list by a key that no two elements share, as `sort_by` does with `cmp`. */
module Sorting {
  import opened Wrappers

  ghost predicate StrictOrder<K(!new)>(less: (K, K) -> bool) {
    && (forall a, b :: a == b || less(a, b) || less(b, a))
    && (forall a, b, c :: less(a, b) && less(b, c) ==> less(a, c))
    && (forall a :: !less(a, a))
  }

  ghost predicate Sorted<K>(keys: seq<K>, less: (K, K) -> bool) {
    forall i, j :: 0 <= i < j < |keys| ==> less(keys[i], keys[j])
  }

  function Keys<T, K>(s: seq<T>, key: T -> K): (keys: seq<K>)
    ensures |keys| == |s|
  {
    seq(|s|, i requires 0 <= i < |s| => key(s[i]))
  }

  ghost predicate DistinctKeys<T, K>(s: seq<T>, key: T -> K) {
    forall i, j :: 0 <= i < j < |s| ==> key(s[i]) != key(s[j])
  }

  /** Each element takes its place among those after it; equal keys keep their order. */
  function Insert<T, K>(x: T, s: seq<T>, key: T -> K, less: (K, K) -> bool): seq<T> {
    if s == [] || !less(key(s[0]), key(x)) then [x] + s else [s[0]] + Insert(x, s[1..], key, less)
  }

  function SortBy<T, K>(s: seq<T>, key: T -> K, less: (K, K) -> bool): seq<T> {
    if s == [] then [] else Insert(s[0], SortBy(s[1..], key, less), key, less)
  }

  lemma {:induction false} InsertKeeps<T, K>(x: T, s: seq<T>, key: T -> K, less: (K, K) -> bool)
    ensures multiset(Insert(x, s, key, less)) == multiset{x} + multiset(s)
    ensures forall y :: y in Insert(x, s, key, less) <==> y == x || y in s
  {
    if s != [] && less(key(s[0]), key(x)) {
      InsertKeeps(x, s[1..], key, less);
      assert s == [s[0]] + s[1..];
    }
  }

  ghost predicate Below<T, K>(x: T, s: seq<T>, key: T -> K, less: (K, K) -> bool) {
    forall i :: 0 <= i < |s| ==> less(key(x), key(s[i]))
  }

  ghost predicate NewKey<T, K>(x: T, s: seq<T>, key: T -> K) {
    forall i :: 0 <= i < |s| ==> key(s[i]) != key(x)
  }

  lemma {:induction false} RestSorted<T, K>(s: seq<T>, key: T -> K, less: (K, K) -> bool)
    requires s != [] && Sorted(Keys(s, key), less)
    ensures Sorted(Keys(s[1..], key), less) && Below(s[0], s[1..], key, less)
  {
    assert Keys(s[1..], key) == Keys(s, key)[1..];
    forall i | 0 <= i < |s[1..]|
      ensures less(key(s[0]), key(s[1..][i]))
    {
      assert less(Keys(s, key)[0], Keys(s, key)[i + 1]);
    }
  }

  lemma {:induction false} ConsSorted<T, K>(x: T, s: seq<T>, key: T -> K, less: (K, K) -> bool)
    requires Sorted(Keys(s, key), less) && Below(x, s, key, less)
    ensures Sorted(Keys([x] + s, key), less)
  {
    assert Keys([x] + s, key) == [key(x)] + Keys(s, key);
  }

  lemma {:induction false} BelowAll<T, K(!new)>(x: T, s: seq<T>, key: T -> K, less: (K, K) -> bool)
    requires StrictOrder(less) && s != [] && Below(s[0], s[1..], key, less) && less(key(x), key(s[0]))
    ensures Below(x, s, key, less)
  {
    forall i | 0 <= i < |s|
      ensures less(key(x), key(s[i]))
    {
      assert i == 0 || s[i] == s[1..][i - 1];
    }
  }

  lemma {:induction false} BelowInsert<T, K>(y: T, x: T, s: seq<T>, key: T -> K, less: (K, K) -> bool)
    requires Below(y, s, key, less) && less(key(y), key(x))
    ensures Below(y, Insert(x, s, key, less), key, less)
  {
    if s != [] && less(key(s[0]), key(x)) {
      assert Below(y, s[1..], key, less);
      BelowInsert(y, x, s[1..], key, less);
    }
  }

  lemma {:induction false} InsertSorted<T, K(!new)>(x: T, s: seq<T>, key: T -> K, less: (K, K) -> bool)
    requires StrictOrder(less) && Sorted(Keys(s, key), less) && NewKey(x, s, key)
    ensures Sorted(Keys(Insert(x, s, key, less), key), less)
  {
    if s == [] {
      ConsSorted(x, s, key, less);
    } else {
      RestSorted(s, key, less);
      assert key(s[0]) != key(x);
      if less(key(s[0]), key(x)) {
        InsertSorted(x, s[1..], key, less);
        BelowInsert(s[0], x, s[1..], key, less);
        ConsSorted(s[0], Insert(x, s[1..], key, less), key, less);
      } else {
        BelowAll(x, s, key, less);
        ConsSorted(x, s, key, less);
      }
    }
  }

  lemma {:induction false} SortKeeps<T, K>(s: seq<T>, key: T -> K, less: (K, K) -> bool)
    ensures multiset(SortBy(s, key, less)) == multiset(s)
    ensures forall x :: x in SortBy(s, key, less) <==> x in s
  {
    if s != [] {
      SortKeeps(s[1..], key, less);
      InsertKeeps(s[0], SortBy(s[1..], key, less), key, less);
      assert s == [s[0]] + s[1..];
    }
  }

  lemma {:induction false} NewKeyInsert<T, K>(y: T, x: T, s: seq<T>, key: T -> K, less: (K, K) -> bool)
    requires NewKey(y, s, key) && key(x) != key(y)
    ensures NewKey(y, Insert(x, s, key, less), key)
  {
    if s != [] && less(key(s[0]), key(x)) {
      assert NewKey(y, s[1..], key);
      NewKeyInsert(y, x, s[1..], key, less);
    }
  }

  lemma {:induction false} NewKeySort<T, K>(y: T, s: seq<T>, key: T -> K, less: (K, K) -> bool)
    requires NewKey(y, s, key)
    ensures NewKey(y, SortBy(s, key, less), key)
  {
    if s != [] {
      assert NewKey(y, s[1..], key);
      NewKeySort(y, s[1..], key, less);
      NewKeyInsert(y, s[0], SortBy(s[1..], key, less), key, less);
    }
  }

  /** Sorting puts elements with distinct keys in order. */
  lemma {:induction false} SortSorts<T, K(!new)>(s: seq<T>, key: T -> K, less: (K, K) -> bool)
    requires StrictOrder(less) && DistinctKeys(s, key)
    ensures Sorted(Keys(SortBy(s, key, less), key), less)
  {
    if s != [] {
      assert DistinctKeys(s[1..], key);
      SortSorts(s[1..], key, less);
      assert NewKey(s[0], s[1..], key);
      NewKeySort(s[0], s[1..], key, less);
      InsertSorted(s[0], SortBy(s[1..], key, less), key, less);
    }
  }

  function Elements<K>(s: seq<K>): set<K> { set x | x in s }

  function Same<K>(x: K): K { x }

  /** The elements of a `BTreeSet` in the order of its iterator. */
  method Ascending<K(!new)>(keys: set<K>, less: (K, K) -> bool) returns (list: seq<K>)
    requires StrictOrder(less)
    ensures Sorted(list, less) && Elements(list) == keys
  {
    list := [];
    var rest := keys;
    while rest != {}
      invariant Sorted(list, less) && Elements(list) + rest == keys && Elements(list) !! rest
      decreases rest
    {
      var x :| x in rest;
      assert Keys(list, Same) == list;
      InsertSorted(x, list, Same, less);
      InsertKeeps(x, list, Same, less);
      list := Insert(x, list, Same, less);
      assert Keys(list, Same) == list;
      rest := rest - {x};
    }
  }
}
