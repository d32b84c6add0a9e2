/**
  Stable sorting by an integer key, largest first.

  The extension sorts with `Array.prototype.sort` and a comparator of the form
  `(a, b) => key(b) - key(a)`.  That sort is stable, so elements with equal
  keys keep their relative order.  The model is an insertion sort; its
  specification is the usual characterisation of a stable sort: the result
  is ordered, and for every key value the elements carrying that key appear
  in the same order as in the input.
 */
module Sorting {

  /** Keys never increase from left to right. */
  predicate SortedDesc<T>(xs: seq<T>, key: T -> int) {
    forall i, j :: 0 <= i < j < |xs| ==> key(xs[i]) >= key(xs[j])
  }

  /** The elements of `xs` whose key is `v`, in order. */
  function WithKey<T>(xs: seq<T>, key: T -> int, v: int): (r: seq<T>)
    ensures |r| <= |xs|
  {
    if |xs| == 0 then []
    else (if key(xs[0]) == v then [xs[0]] else []) + WithKey(xs[1..], key, v)
  }

  /** Inserts `x` after every element whose key is at least `x`'s. */
  function Insert<T>(x: T, s: seq<T>, key: T -> int): (r: seq<T>)
    ensures |r| == |s| + 1
    ensures multiset(r) == multiset(s) + multiset{x}
  {
    if |s| == 0 then [x]
    else if key(s[0]) >= key(x) then
      assert s == [s[0]] + s[1..];
      [s[0]] + Insert(x, s[1..], key)
    else
      [x] + s
  }

  /** Inserting into a sorted list keeps it sorted. */
  lemma {:induction false} InsertSorted<T>(x: T, s: seq<T>, key: T -> int)
    requires SortedDesc(s, key)
    ensures SortedDesc(Insert(x, s, key), key)
    decreases |s|
  {
    if |s| > 0 && key(s[0]) >= key(x) {
      assert SortedDesc(s[1..], key);
      InsertSorted(x, s[1..], key);
      InsertBounded(x, s[1..], key, key(s[0]));
      ConsSorted(s[0], Insert(x, s[1..], key), key);
    } else if |s| > 0 {
      ConsSorted(x, s, key);
    }
  }

  /** A bound on every key survives an insertion of an element within it. */
  lemma {:induction false} InsertBounded<T>(x: T, s: seq<T>, key: T -> int, b: int)
    requires key(x) <= b && forall k :: 0 <= k < |s| ==> key(s[k]) <= b
    ensures forall k :: 0 <= k < |Insert(x, s, key)| ==> key(Insert(x, s, key)[k]) <= b
    decreases |s|
  {
    if |s| > 0 && key(s[0]) >= key(x) {
      InsertBounded(x, s[1..], key, b);
      var r := Insert(x, s, key);
      var rest := Insert(x, s[1..], key);
      assert r == [s[0]] + rest;
      assert forall k :: 1 <= k < |r| ==> r[k] == rest[k - 1];
    }
  }

  /** A sorted list stays sorted under a head whose key bounds all of it. */
  lemma ConsSorted<T>(h: T, t: seq<T>, key: T -> int)
    requires SortedDesc(t, key) && forall k :: 0 <= k < |t| ==> key(t[k]) <= key(h)
    ensures SortedDesc([h] + t, key)
  {
    var r := [h] + t;
    assert forall k :: 1 <= k < |r| ==> r[k] == t[k - 1];
  }

  /** Insertion sort, largest key first, stable. */
  function SortByKeyDesc<T>(xs: seq<T>, key: T -> int): (r: seq<T>)
    ensures |r| == |xs|
    ensures multiset(r) == multiset(xs)
    ensures SortedDesc(r, key)
  {
    if |xs| == 0 then []
    else
      var n := |xs| - 1;
      assert xs == xs[..n] + [xs[n]];
      InsertSorted(xs[n], SortByKeyDesc(xs[..n], key), key);
      Insert(xs[n], SortByKeyDesc(xs[..n], key), key)
  }

  /** Nothing with key `v` remains when every key is smaller than `v`. */
  lemma {:induction false} WithKeyNone<T>(s: seq<T>, key: T -> int, v: int)
    requires forall k :: 0 <= k < |s| ==> key(s[k]) < v
    ensures WithKey(s, key, v) == []
    decreases |s|
  {
    if |s| > 0 {
      WithKeyNone(s[1..], key, v);
    }
  }

  lemma {:induction false} WithKeyAppend<T>(a: seq<T>, b: seq<T>, key: T -> int, v: int)
    ensures WithKey(a + b, key, v) == WithKey(a, key, v) + WithKey(b, key, v)
    decreases |a|
  {
    if |a| == 0 {
      assert a + b == b;
    } else {
      var h := if key(a[0]) == v then [a[0]] else [];
      assert (a + b)[0] == a[0];
      assert (a + b)[1..] == a[1..] + b;
      assert WithKey(a + b, key, v) == h + WithKey(a[1..] + b, key, v);
      WithKeyAppend(a[1..], b, key, v);
      assert WithKey(a, key, v) == h + WithKey(a[1..], key, v);
      assert h + (WithKey(a[1..], key, v) + WithKey(b, key, v))
          == (h + WithKey(a[1..], key, v)) + WithKey(b, key, v);
    }
  }

  /** The group of one element: itself when its key is `v`. */
  function Single<T>(x: T, key: T -> int, v: int): seq<T> {
    if key(x) == v then [x] else []
  }

  lemma WithKeyCons<T>(x: T, s: seq<T>, key: T -> int, v: int)
    ensures WithKey([x] + s, key, v) == Single(x, key, v) + WithKey(s, key, v)
  {
    assert ([x] + s)[0] == x && ([x] + s)[1..] == s;
  }

  /** Insertion past a head whose key is at least `x`'s. */
  lemma InsertPastHead<T>(x: T, s: seq<T>, key: T -> int)
    requires |s| > 0 && key(s[0]) >= key(x)
    ensures Insert(x, s, key) == [s[0]] + Insert(x, s[1..], key)
  {
  }

  /** Inserting into a sorted list appends `x` to its key's group. */
  lemma {:induction false} InsertWithKey<T>(x: T, s: seq<T>, key: T -> int, v: int)
    requires SortedDesc(s, key)
    ensures WithKey(Insert(x, s, key), key, v) == WithKey(s, key, v) + Single(x, key, v)
    decreases |s|
  {
    if |s| == 0 {
      WithKeyCons(x, [], key, v);
      assert Insert(x, s, key) == [x] + [];
    } else if key(s[0]) >= key(x) {
      assert SortedDesc(s[1..], key);
      InsertWithKey(x, s[1..], key, v);
      InsertAfterHead(x, s, key, v);
    } else {
      InsertBeforeHead(x, s, key, v);
    }
  }

  /** Insertion past a head whose key is at least `x`'s, given the result for
      the tail. */
  lemma InsertAfterHead<T>(x: T, s: seq<T>, key: T -> int, v: int)
    requires |s| > 0 && key(s[0]) >= key(x)
    requires WithKey(Insert(x, s[1..], key), key, v) == WithKey(s[1..], key, v) + Single(x, key, v)
    ensures WithKey(Insert(x, s, key), key, v) == WithKey(s, key, v) + Single(x, key, v)
  {
    var h, t, sx := Single(s[0], key, v), WithKey(s[1..], key, v), Single(x, key, v);
    var ins := Insert(x, s[1..], key);
    InsertPastHead(x, s, key);
    WithKeyCons(s[0], ins, key, v);
    WithKeyUnfold(s, key, v);
    ConcatAssoc(h, t, sx);
  }

  lemma ConcatAssoc<T>(a: seq<T>, b: seq<T>, c: seq<T>)
    ensures a + (b + c) == (a + b) + c
  {
  }

  lemma WithKeyUnfold<T>(s: seq<T>, key: T -> int, v: int)
    requires |s| > 0
    ensures WithKey(s, key, v) == Single(s[0], key, v) + WithKey(s[1..], key, v)
  {
  }

  /** Insertion before a head with a smaller key. */
  lemma InsertBeforeHead<T>(x: T, s: seq<T>, key: T -> int, v: int)
    requires SortedDesc(s, key)
    requires |s| > 0 && key(s[0]) < key(x)
    ensures WithKey(Insert(x, s, key), key, v) == WithKey(s, key, v) + Single(x, key, v)
  {
    assert Insert(x, s, key) == [x] + s;
    WithKeyCons(x, s, key, v);
    if key(x) == v {
      assert forall k :: 0 <= k < |s| ==> key(s[k]) <= key(s[0]);
      WithKeyNone(s, key, v);
    }
  }

  lemma WithKeySnoc<T>(xs: seq<T>, key: T -> int, v: int)
    requires |xs| > 0
    ensures WithKey(xs, key, v) == WithKey(xs[..|xs| - 1], key, v) + Single(xs[|xs| - 1], key, v)
  {
    var n := |xs| - 1;
    assert xs == xs[..n] + [xs[n]];
    WithKeyAppend(xs[..n], [xs[n]], key, v);
    WithKeyCons(xs[n], [], key, v);
    assert [xs[n]] + [] == [xs[n]];
  }

  /** Sorting a non-empty list inserts its last element into the sorted rest. */
  lemma SortByKeyDescStep<T>(xs: seq<T>, key: T -> int)
    requires |xs| > 0
    ensures SortByKeyDesc(xs, key) == Insert(xs[|xs| - 1], SortByKeyDesc(xs[..|xs| - 1], key), key)
  {
  }

  /** Stability: every key's group keeps its input order. */
  lemma {:induction false} SortStable<T>(xs: seq<T>, key: T -> int, v: int)
    ensures WithKey(SortByKeyDesc(xs, key), key, v) == WithKey(xs, key, v)
    decreases |xs|
  {
    if |xs| > 0 {
      SortStable(xs[..|xs| - 1], key, v);
      SortStableStep(xs, key, v);
    }
  }

  /** The inductive step of `SortStable`. */
  lemma SortStableStep<T>(xs: seq<T>, key: T -> int, v: int)
    requires |xs| > 0
    requires WithKey(SortByKeyDesc(xs[..|xs| - 1], key), key, v) == WithKey(xs[..|xs| - 1], key, v)
    ensures WithKey(SortByKeyDesc(xs, key), key, v) == WithKey(xs, key, v)
  {
    var n := |xs| - 1;
    var init := SortByKeyDesc(xs[..n], key);
    assert WithKey(SortByKeyDesc(xs, key), key, v) == WithKey(init, key, v) + Single(xs[n], key, v) by {
      SortByKeyDescStep(xs, key);
      InsertWithKey(xs[n], init, key, v);
    }
    WithKeySnoc(xs, key, v);
  }

  /** The position of the first element with the largest key. */
  function FirstMaxIndex<T>(xs: seq<T>, key: T -> int): (i: nat)
    requires |xs| > 0
    ensures i < |xs|
    ensures forall j :: 0 <= j < |xs| ==> key(xs[j]) <= key(xs[i])
    ensures forall j :: 0 <= j < i ==> key(xs[j]) < key(xs[i])
  {
    if |xs| == 1 then 0
    else
      var n := |xs| - 1;
      var i := FirstMaxIndex(xs[..n], key);
      assert forall j :: 0 <= j < n ==> xs[..n][j] == xs[j];
      if key(xs[n]) > key(xs[i]) then n else i
  }

  /** The first element of a group is its first occurrence in the list. */
  lemma {:induction false} WithKeyHead<T>(xs: seq<T>, key: T -> int, i: int)
    requires 0 <= i < |xs|
    requires forall j :: 0 <= j < i ==> key(xs[j]) != key(xs[i])
    ensures |WithKey(xs, key, key(xs[i]))| > 0 && WithKey(xs, key, key(xs[i]))[0] == xs[i]
    decreases i
  {
    if i > 0 {
      WithKeyHead(xs[1..], key, i - 1);
    }
  }

  /** The head of the sorted list is the first element with the largest key:
      what `sort(...)[0]` picks. */
  lemma SortHeadIsFirstMax<T>(xs: seq<T>, key: T -> int)
    requires |xs| > 0
    ensures SortByKeyDesc(xs, key)[0] == xs[FirstMaxIndex(xs, key)]
  {
    var r := SortByKeyDesc(xs, key);
    var i := FirstMaxIndex(xs, key);
    var m := key(xs[i]);
    assert xs[i] in multiset(r);
    var k :| 0 <= k < |r| && r[k] == xs[i];
    assert key(r[0]) >= m;
    assert r[0] in multiset(xs);
    var j :| 0 <= j < |xs| && xs[j] == r[0];
    assert key(r[0]) == m;
    SortStable(xs, key, m);
    WithKeyHead(r, key, 0);
    WithKeyHead(xs, key, i);
  }
}
