/**
 * pandas `sort_values` on one key column. The default algorithm is quicksort,
 * which is not stable, so the only promise modelled is that the output is a
 * permutation of the input ordered by the key. The model sorts by insertion.
 */
module Sorting {

  /** Ordered by `key`, ascending. */
  predicate SortedBy<T>(xs: seq<T>, key: T -> real)
  {
    forall i, j :: 0 <= i < j < |xs| ==> key(xs[i]) <= key(xs[j])
  }

  /** An element whose key is at most every key of an ordered sequence can go in front of it. */
  lemma PrependSorted<T>(y: T, rest: seq<T>, key: T -> real)
    requires SortedBy(rest, key)
    requires forall k :: 0 <= k < |rest| ==> key(y) <= key(rest[k])
    ensures SortedBy([y] + rest, key)
  {
    var r := [y] + rest;
    forall i, j | 0 <= i < j < |r| ensures key(r[i]) <= key(r[j]) {
      assert r[j] == rest[j - 1];
      if i > 0 {
        assert r[i] == rest[i - 1];
      }
    }
  }

  /** The step of `Insert` that keeps the first element in front: the properties
    * of the insertion into the tail carry over to the whole. */
  lemma InsertBehind<T>(x: T, xs: seq<T>, rest: seq<T>, key: T -> real)
    requires xs != [] && SortedBy(xs, key) && key(xs[0]) < key(x)
    requires SortedBy(rest, key) && multiset(rest) == multiset(xs[1..]) + multiset{x} && |rest| == |xs|
    requires forall k :: 0 <= k < |rest| ==> rest[k] == x || rest[k] in xs[1..]
    ensures SortedBy([xs[0]] + rest, key)
    ensures multiset([xs[0]] + rest) == multiset(xs) + multiset{x}
    ensures forall k :: 0 <= k < |rest| + 1 ==> ([xs[0]] + rest)[k] == x || ([xs[0]] + rest)[k] in xs
  {
    var tail := xs[1..];
    assert xs == [xs[0]] + tail;
    forall k | 0 <= k < |rest| ensures key(xs[0]) <= key(rest[k]) {
      if rest[k] != x {
        var j :| 0 <= j < |tail| && tail[j] == rest[k];
        assert xs[j + 1] == rest[k];
      }
    }
    PrependSorted(xs[0], rest, key);
  }

  /** Inserts `x` into an ordered sequence, in front of the first element whose key is not smaller. */
  function Insert<T>(x: T, xs: seq<T>, key: T -> real): (r: seq<T>)
    requires SortedBy(xs, key)
    decreases |xs|
    ensures SortedBy(r, key)
    ensures multiset(r) == multiset(xs) + multiset{x}
    ensures |r| == |xs| + 1
    ensures forall k :: 0 <= k < |r| ==> r[k] == x || r[k] in xs
  {
    if xs == [] then [x]
    else if key(x) <= key(xs[0]) then
      PrependSorted(x, xs, key);
      [x] + xs
    else
      var rest := Insert(x, xs[1..], key);
      InsertBehind(x, xs, rest, key);
      [xs[0]] + rest
  }

  /** The sorted permutation of `xs`. */
  function SortBy<T>(xs: seq<T>, key: T -> real): (r: seq<T>)
    decreases |xs|
    ensures SortedBy(r, key)
    ensures multiset(r) == multiset(xs)
    ensures |r| == |xs|
  {
    if xs == [] then []
    else
      assert xs == [xs[0]] + xs[1..];
      Insert(xs[0], SortBy(xs[1..], key), key)
  }

  /** A single element is already sorted. */
  lemma SortBySingleton<T>(x: T, key: T -> real)
    ensures SortBy([x], key) == [x]
  {
    assert [x][1..] == [];
  }

  /** Ordered by `key`, strictly ascending: no two elements share a key. */
  predicate StrictlySortedBy<T>(xs: seq<T>, key: T -> real)
  {
    forall i, j :: 0 <= i < j < |xs| ==> key(xs[i]) < key(xs[j])
  }

  /** Sorting a sequence whose keys already strictly ascend leaves it
    * unchanged: no order among equal keys is involved. */
  lemma {:induction false} SortBySorted<T>(xs: seq<T>, key: T -> real)
    requires StrictlySortedBy(xs, key)
    ensures SortBy(xs, key) == xs
    decreases |xs|
  {
    if xs != [] {
      var tail := xs[1..];
      assert forall i :: 0 <= i < |tail| ==> tail[i] == xs[i + 1];
      SortBySorted(tail, key);
      if tail != [] {
        assert key(xs[0]) <= key(tail[0]);
      }
      assert xs == [xs[0]] + tail;
    }
  }

  /** A permutation has exactly the same members. */
  lemma SortByKeepsMembers<T>(xs: seq<T>, key: T -> real)
    ensures forall x :: x in SortBy(xs, key) <==> x in xs
  {
    var r := SortBy(xs, key);
    forall x ensures x in r <==> x in xs {
      assert x in r <==> x in multiset(r);
      assert x in xs <==> x in multiset(xs);
    }
  }
}
