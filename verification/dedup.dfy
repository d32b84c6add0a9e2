/**
  First-occurrence-wins deduplication of a list under a "same record" relation.

  Two rules of the extension are instances:
  - the scraper keeps the first GPT for each `name-url` key and the first
    conversation for each id (a key relation);
  - the storage clean-up keeps element i iff no earlier element shares its url
    or its id (`index === self.findIndex(...)`, a relation that is not
    transitive).
 */
module Dedup {

  /** Element `i` is the first of its kind: nothing before it is `same`. */
  predicate FirstOfItsKind<T>(xs: seq<T>, i: int, same: (T, T) -> bool)
    requires 0 <= i < |xs|
  {
    forall j :: 0 <= j < i ==> !same(xs[j], xs[i])
  }

  /** No element of `xs` is `same` as an earlier one. */
  predicate PairwiseDistinct<T>(xs: seq<T>, same: (T, T) -> bool) {
    forall a, b :: 0 <= a < b < |xs| ==> !same(xs[a], xs[b])
  }

  /** The positions that survive deduplication, in increasing order: exactly
      the first-of-their-kind positions. */
  function KeptIndices<T>(xs: seq<T>, same: (T, T) -> bool): (ix: seq<nat>)
    ensures |ix| <= |xs|
    ensures forall k :: 0 <= k < |ix| ==> ix[k] < |xs| && FirstOfItsKind(xs, ix[k], same)
    ensures forall a, b :: 0 <= a < b < |ix| ==> ix[a] < ix[b]
    ensures forall i :: 0 <= i < |xs| && FirstOfItsKind(xs, i, same) ==> i in ix
    decreases |xs|
  {
    if |xs| == 0 then []
    else
      var n := |xs| - 1;
      var init := KeptIndices(xs[..n], same);
      FirstOfItsKindInPrefix(xs, n, same);
      if FirstOfItsKind(xs, n, same) then init + [n] else init
  }

  /** Whether a position is the first of its kind does not depend on what
      comes after it. */
  lemma FirstOfItsKindInPrefix<T>(xs: seq<T>, n: int, same: (T, T) -> bool)
    requires 0 <= n <= |xs|
    ensures forall i :: 0 <= i < n ==> FirstOfItsKind(xs[..n], i, same) == FirstOfItsKind(xs, i, same)
  {
    forall i | 0 <= i < n
      ensures FirstOfItsKind(xs[..n], i, same) == FirstOfItsKind(xs, i, same)
    {
      assert forall j :: 0 <= j <= i ==> xs[..n][j] == xs[j];
    }
  }

  /** First-occurrence-wins deduplication: the elements at the kept positions,
      in their original order. */
  function KeepFirst<T>(xs: seq<T>, same: (T, T) -> bool): (r: seq<T>)
    ensures |r| == |KeptIndices(xs, same)|
    ensures forall k :: 0 <= k < |r| ==> r[k] == xs[KeptIndices(xs, same)[k]]
    decreases |xs|
  {
    if |xs| == 0 then []
    else
      var n := |xs| - 1;
      var init := KeepFirst(xs[..n], same);
      if FirstOfItsKind(xs, n, same) then init + [xs[n]] else init
  }

  /** What the caller relies on: the result is drawn from the input, starts
      with the input's first element, and holds no two `same` records. */
  lemma KeepFirstProperties<T>(xs: seq<T>, same: (T, T) -> bool)
    ensures |KeepFirst(xs, same)| <= |xs|
    ensures forall k :: 0 <= k < |KeepFirst(xs, same)| ==> KeepFirst(xs, same)[k] in xs
    ensures |xs| > 0 ==> |KeepFirst(xs, same)| > 0 && KeepFirst(xs, same)[0] == xs[0]
    ensures PairwiseDistinct(KeepFirst(xs, same), same)
  {
    var r := KeepFirst(xs, same);
    var ix := KeptIndices(xs, same);
    if |xs| > 0 {
      assert FirstOfItsKind(xs, 0, same);
      assert 0 in ix;
      var k :| 0 <= k < |ix| && ix[k] == 0;
      assert ix[0] <= ix[k];
      assert r[0] == xs[ix[0]];
    }
    forall a, b | 0 <= a < b < |r|
      ensures !same(r[a], r[b])
    {
      assert ix[a] < ix[b];
      assert FirstOfItsKind(xs, ix[b], same);
    }
  }

  /** A list with no duplicates is left exactly as it is, and only such a list
      is: deduplication changes something iff there is a duplicate. */
  lemma KeepFirstFixpoint<T>(xs: seq<T>, same: (T, T) -> bool)
    ensures KeepFirst(xs, same) == xs <==> PairwiseDistinct(xs, same)
  {
    KeepFirstProperties(xs, same);
    if PairwiseDistinct(xs, same) {
      KeepFirstOfDistinct(xs, same);
    }
  }

  lemma {:induction false} KeepFirstOfDistinct<T>(xs: seq<T>, same: (T, T) -> bool)
    requires PairwiseDistinct(xs, same)
    ensures KeepFirst(xs, same) == xs
    decreases |xs|
  {
    if |xs| > 0 {
      var n := |xs| - 1;
      assert PairwiseDistinct(xs[..n], same) by {
        assert forall j :: 0 <= j < n ==> xs[..n][j] == xs[j];
      }
      KeepFirstOfDistinct(xs[..n], same);
      assert FirstOfItsKind(xs, n, same);
      KeepFirstSnoc(xs, n, same);
      assert xs[..n + 1] == xs;
      assert xs[..n] + [xs[n]] == xs;
    }
  }

  /** Deduplicating twice gives the same result as deduplicating once. */
  lemma KeepFirstIdempotent<T>(xs: seq<T>, same: (T, T) -> bool)
    ensures KeepFirst(KeepFirst(xs, same), same) == KeepFirst(xs, same)
  {
    KeepFirstProperties(xs, same);
    KeepFirstFixpoint(KeepFirst(xs, same), same);
  }

  /** Nothing was removed (equal lengths) only when nothing changed; this is
      why the source may compare lengths to decide whether to write back. */
  lemma {:induction false} SameLengthMeansUnchanged<T>(xs: seq<T>, same: (T, T) -> bool)
    ensures |KeepFirst(xs, same)| == |xs| <==> KeepFirst(xs, same) == xs
    decreases |xs|
  {
    if |xs| > 0 && |KeepFirst(xs, same)| == |xs| {
      var n := |xs| - 1;
      var init := KeepFirst(xs[..n], same);
      KeepFirstProperties(xs[..n], same);
      assert !FirstOfItsKind(xs, n, same) ==> KeepFirst(xs, same) == init;
      assert FirstOfItsKind(xs, n, same);
      assert |init| == n;
      SameLengthMeansUnchanged(xs[..n], same);
      assert xs == xs[..n] + [xs[n]];
    }
  }

  // ---------------------------------------------------------------------
  // The source's formulation: `self.findIndex(pred)`
  // ---------------------------------------------------------------------

  /** `xs.findIndex(p)`: the first position satisfying `p`, or -1. */
  function FindIndex<T>(xs: seq<T>, p: T -> bool): (r: int)
    ensures -1 <= r < |xs|
    ensures r == -1 <==> forall j :: 0 <= j < |xs| ==> !p(xs[j])
    ensures r >= 0 ==> p(xs[r]) && forall j :: 0 <= j < r ==> !p(xs[j])
  {
    if |xs| == 0 then -1
    else if p(xs[0]) then 0
    else
      var r := FindIndex(xs[1..], p);
      if r == -1 then -1 else r + 1
  }

  /** `g => same(g, x)`: the test `findIndex` applies to each element. */
  function SameAs<T>(same: (T, T) -> bool, x: T): T -> bool {
    g => same(g, x)
  }

  /** For a reflexive relation, `i === self.findIndex(g => same(g, xs[i]))`
      holds exactly for the first-of-its-kind positions. */
  lemma FindIndexAgrees<T>(xs: seq<T>, i: int, same: (T, T) -> bool)
    requires 0 <= i < |xs|
    requires same(xs[i], xs[i])
    ensures FindIndex(xs, SameAs(same, xs[i])) == i <==> FirstOfItsKind(xs, i, same)
  {
    var r := FindIndex(xs, SameAs(same, xs[i]));
    if FirstOfItsKind(xs, i, same) {
      assert r <= i;
    }
  }

  // ---------------------------------------------------------------------
  // Keys
  // ---------------------------------------------------------------------

  /** The relation "same key". */
  function SameKey<T, K(==)>(key: T -> K): (same: (T, T) -> bool)
  {
    (a, b) => key(a) == key(b)
  }

  /** Under a key relation nothing is lost: every key of the input is the key
      of some kept element. */
  lemma {:induction false} KeepFirstCoversKeys<T, K>(xs: seq<T>, key: T -> K, i: int)
    requires 0 <= i < |xs|
    ensures exists k :: 0 <= k < |KeepFirst(xs, SameKey(key))| && key(KeepFirst(xs, SameKey(key))[k]) == key(xs[i])
    decreases |xs|
  {
    var same := SameKey(key);
    var n := |xs| - 1;
    var init := KeepFirst(xs[..n], same);
    var r := KeepFirst(xs, same);
    if FirstOfItsKind(xs, n, same) {
      assert r == init + [xs[n]];
    } else {
      assert r == init;
    }
    if i == n && FirstOfItsKind(xs, n, same) {
      assert r[|r| - 1] == xs[i];
    } else {
      var i' := i;
      if i == n {
        var j :| 0 <= j < n && same(xs[j], xs[n]);
        i' := j;
      }
      KeepFirstCoversKeys(xs[..n], key, i');
      var k :| 0 <= k < |init| && key(init[k]) == key(xs[..n][i']);
      assert r[k] == init[k];
    }
  }

  /** Deduplicating one more element appends it iff it is the first of its kind. */
  lemma KeepFirstSnoc<T>(xs: seq<T>, i: int, same: (T, T) -> bool)
    requires 0 <= i < |xs|
    ensures KeepFirst(xs[..i + 1], same)
         == KeepFirst(xs[..i], same) + (if FirstOfItsKind(xs, i, same) then [xs[i]] else [])
  {
    var p := xs[..i + 1];
    assert p[..i] == xs[..i];
    assert FirstOfItsKind(p, i, same) == FirstOfItsKind(xs, i, same) by {
      assert forall j :: 0 <= j <= i ==> p[j] == xs[j];
    }
  }

  /** Keys of the first `i` elements. */
  ghost predicate SeenExactly<T, K>(seen: set<K>, xs: seq<T>, key: T -> K, i: int)
    requires 0 <= i <= |xs|
  {
    && (forall j :: 0 <= j < i ==> key(xs[j]) in seen)
    && (forall k :: k in seen ==> exists j :: 0 <= j < i && key(xs[j]) == k)
  }

  lemma SeenStep<T, K>(seen: set<K>, xs: seq<T>, key: T -> K, i: int)
    requires 0 <= i < |xs| && SeenExactly(seen, xs, key, i)
    ensures key(xs[i]) in seen <==> !FirstOfItsKind(xs, i, SameKey(key))
    ensures SeenExactly(seen + {key(xs[i])}, xs, key, i + 1)
  {
    if key(xs[i]) in seen {
      var j :| 0 <= j < i && key(xs[j]) == key(xs[i]);
      assert SameKey(key)(xs[j], xs[i]);
    }
  }

  /** The scraper's algorithm: one pass with a set of keys already seen. */
  method DedupBySeenKeys<T, K(==)>(xs: seq<T>, key: T -> K) returns (r: seq<T>)
    ensures r == KeepFirst(xs, SameKey(key))
  {
    var seen: set<K> := {};
    r := [];
    var i := 0;
    while i < |xs|
      invariant 0 <= i <= |xs|
      invariant SeenExactly(seen, xs, key, i)
      invariant r == KeepFirst(xs[..i], SameKey(key))
    {
      var x := xs[i];
      KeepFirstSnoc(xs, i, SameKey(key));
      SeenStep(seen, xs, key, i);
      if key(x) !in seen {
        r := r + [x];
      }
      seen := seen + {key(x)};
      i := i + 1;
    }
    assert xs[..i] == xs;
  }
}
