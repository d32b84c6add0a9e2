/**
  The records the extension keeps in local storage: GPTs, conversations, and
  the loosely typed settings and statistics objects.
 */
module Records {
  import opened Wrappers
  import opened Text

  /** A stored GPT.  Fields that records written by older versions or imported
      from a file may lack are `Option`s; `url` uses "" for "no URL". */
  datatype Gpt = Gpt(
    id: String,
    name: String,
    description: String,
    iconUrl: Option<String>,
    url: String,
    category: Option<String>,
    favorite: bool,
    usageCount: Option<int>,
    lastUsed: Option<int>,
    createdAt: int,
    source: String
  )

  /** A stored conversation thread. */
  datatype Conversation = Conversation(
    id: String,
    title: String,
    lastMessage: String,
    url: String,
    messageCount: int,
    starred: bool,
    category: Option<String>,
    updatedAt: int,
    createdAt: int,
    source: String
  )

  /** `gpt.usageCount || 0`: a missing count reads as zero. */
  function UsageOf(g: Gpt): int {
    g.usageCount.GetOr(0)
  }

  /** A JSON value as stored in the settings and statistics objects. */
  datatype Value =
    | Null
    | Bool(b: bool)
    | Num(n: int)
    | Str(s: String)
    | List(items: seq<String>)

  /** A plain JavaScript object: string keys to JSON values. */
  type Obj = map<String, Value>

  /** `obj.key || 0` for a numeric counter; a missing or non-numeric entry
      reads as zero. */
  function CounterOr0(o: Obj, key: String): int {
    if key in o && o[key].Num? then o[key].n else 0
  }

  /** `obj.key`: a missing key reads as `Null` (undefined). */
  function Lookup(o: Obj, key: String): Value {
    if key in o then o[key] else Null
  }

  /** JavaScript truthiness of a stored value. */
  predicate Truthy(v: Value) {
    match v
    case Null => false
    case Bool(b) => b
    case Num(n) => n != 0
    case Str(s) => |s| > 0
    case List(_) => true
  }

  /** `{ ...base, ...over }`: every key of `over` takes `over`'s value; the
      other keys of `base` keep theirs. */
  function Overlay(base: Obj, over: Obj): (r: Obj)
    ensures r.Keys == base.Keys + over.Keys
    ensures forall k :: k in over ==> r[k] == over[k]
    ensures forall k :: k in base && k !in over ==> r[k] == base[k]
  {
    base + over
  }

  /** The seven categories every installation starts with, in display order. */
  const DefaultCategories: seq<String> :=
    ["writing", "coding", "analysis", "creative", "business", "education", "other"]

  /** Milliseconds in a day. */
  const DayMs: int := 24 * 60 * 60 * 1000

  /** Number of elements of `xs` satisfying `p`. */
  function CountWhere<T>(xs: seq<T>, p: T -> bool): (n: nat)
    ensures n <= |xs|
  {
    if |xs| == 0 then 0
    else CountWhere(xs[..|xs| - 1], p) + (if p(xs[|xs| - 1]) then 1 else 0)
  }

  /** `xs.filter(p)`. */
  function Filter<T>(xs: seq<T>, p: T -> bool): (r: seq<T>)
    ensures |r| == CountWhere(xs, p)
    ensures forall k :: 0 <= k < |r| ==> p(r[k]) && r[k] in xs
  {
    if |xs| == 0 then []
    else
      var init := Filter(xs[..|xs| - 1], p);
      if p(xs[|xs| - 1]) then init + [xs[|xs| - 1]] else init
  }

  /** The complement of a predicate. */
  function Not<T(!new)>(p: T -> bool): (q: T -> bool)
    ensures forall x :: q(x) == !p(x)
  {
    x => !p(x)
  }

  /** A condition and its complement split the list: every element is
      counted by exactly one of them. */
  lemma {:induction false} CountPartition<T(!new)>(xs: seq<T>, p: T -> bool)
    ensures CountWhere(xs, p) + CountWhere(xs, Not(p)) == |xs|
    decreases |xs|
  {
    if |xs| > 0 {
      CountPartition(xs[..|xs| - 1], p);
    }
  }

  /** Every element satisfying `p` survives the filter. */
  lemma {:induction false} FilterKeeps<T>(xs: seq<T>, p: T -> bool, x: T)
    requires x in xs && p(x)
    ensures x in Filter(xs, p)
    decreases |xs|
  {
    var n := |xs| - 1;
    if xs[n] != x {
      assert x in xs[..n] by { assert xs == xs[..n] + [xs[n]]; }
      FilterKeeps(xs[..n], p, x);
    }
  }

  /** A weaker condition counts at least as many elements. */
  lemma {:induction false} CountWhereMonotone<T>(xs: seq<T>, p: T -> bool, q: T -> bool)
    requires forall k :: 0 <= k < |xs| ==> p(xs[k]) ==> q(xs[k])
    ensures CountWhere(xs, p) <= CountWhere(xs, q)
    decreases |xs|
  {
    if |xs| > 0 {
      var n := |xs| - 1;
      assert forall k :: 0 <= k < n ==> xs[..n][k] == xs[k];
      CountWhereMonotone(xs[..n], p, q);
    }
  }

  /** When every element satisfies `p`, the filter keeps the list whole. */
  lemma {:induction false} FilterAll<T>(xs: seq<T>, p: T -> bool)
    requires forall k :: 0 <= k < |xs| ==> p(xs[k])
    ensures Filter(xs, p) == xs
    decreases |xs|
  {
    if |xs| > 0 {
      var n := |xs| - 1;
      assert forall k :: 0 <= k < n ==> xs[..n][k] == xs[k];
      FilterAll(xs[..n], p);
      assert xs == xs[..n] + [xs[n]];
    }
  }

  /** The filter of a one-element list keeps it exactly when `p` holds. */
  lemma FilterSingle<T>(x: T, p: T -> bool)
    ensures Filter([x], p) == if p(x) then [x] else []
  {
    assert [x][..0] == [];
  }

  /** Filtering distributes over concatenation.  With `FilterSingle` and
      `Filter([], p) == []` this determines the filter completely: the kept
      elements stay in their order, each as often as it occurs. */
  lemma {:induction false} FilterAppend<T>(a: seq<T>, b: seq<T>, p: T -> bool)
    ensures Filter(a + b, p) == Filter(a, p) + Filter(b, p)
    decreases |b|
  {
    if |b| == 0 {
      assert a + b == a;
    } else {
      var n := |b| - 1;
      assert (a + b)[..|a + b| - 1] == a + b[..n];
      assert (a + b)[|a + b| - 1] == b[n];
      FilterAppend(a, b[..n], p);
    }
  }

  /** The values of `f` on the elements where it has one, in order: the
      shape of a loop that pushes a record for every element it can parse. */
  function Collect<E, T>(els: seq<E>, f: E -> Option<T>): (r: seq<T>)
    ensures |r| <= |els|
    ensures forall k :: 0 <= k < |r| ==> exists i :: 0 <= i < |els| && f(els[i]) == Some(r[k])
  {
    if |els| == 0 then []
    else
      var n := |els| - 1;
      var init := Collect(els[..n], f);
      assert forall k :: 0 <= k < |init| ==> exists i :: 0 <= i < |els| && f(els[i]) == Some(init[k]) by {
        forall k | 0 <= k < |init|
          ensures exists i :: 0 <= i < |els| && f(els[i]) == Some(init[k])
        {
          var i :| 0 <= i < n && f(els[..n][i]) == Some(init[k]);
          assert els[..n][i] == els[i];
        }
      }
      match f(els[n])
      case Some(x) => init + [x]
      case None => init
  }

  /** One element contributes its value, or nothing. */
  lemma CollectSingle<E, T>(e: E, f: E -> Option<T>)
    ensures Collect([e], f) == if f(e).Some? then [f(e).value] else []
  {
    assert [e][..0] == [];
  }

  /** Collecting distributes over concatenation; with `CollectSingle` this
      fixes the result as one value per element that has one, in order. */
  lemma {:induction false} CollectAppend<E, T>(a: seq<E>, b: seq<E>, f: E -> Option<T>)
    ensures Collect(a + b, f) == Collect(a, f) + Collect(b, f)
    decreases |b|
  {
    if |b| == 0 {
      assert a + b == a;
    } else {
      var n := |b| - 1;
      assert (a + b)[..|a + b| - 1] == a + b[..n];
      assert (a + b)[|a + b| - 1] == b[n];
      CollectAppend(a, b[..n], f);
    }
  }

  /** `f` applied `k` times: what `k` event listeners running the same
      handler one after another do to the state. */
  function Repeat<T>(f: T -> T, x: T, k: nat): T
    decreases k
  {
    if k == 0 then x else f(Repeat(f, x, k - 1))
  }

  /** A step that keeps `inv` and raises `m` by one raises it by `k` when
      repeated `k` times. */
  lemma {:induction false} RepeatCounts<T>(f: T -> T, inv: T -> bool, m: T -> int, x: T, k: nat)
    requires inv(x)
    requires forall y :: inv(y) ==> inv(f(y)) && m(f(y)) == m(y) + 1
    ensures inv(Repeat(f, x, k)) && m(Repeat(f, x, k)) == m(x) + k
    decreases k
  {
    if k > 0 {
      RepeatCounts(f, inv, m, x, k - 1);
    }
  }

  /** An involution repeated `k` times is the identity for even `k` and one
      application for odd `k`. */
  lemma {:induction false} RepeatInvolution<T>(f: T -> T, x: T, k: nat)
    requires f(f(x)) == x
    ensures Repeat(f, x, k) == if k % 2 == 0 then x else f(x)
    decreases k
  {
    if k > 0 {
      RepeatInvolution(f, x, k - 1);
    }
  }

  /** The members every plain JavaScript object inherits from `Object.prototype`. */
  const ObjectPrototypeKeys: set<String> := {
    "constructor", "hasOwnProperty", "isPrototypeOf", "propertyIsEnumerable",
    "toString", "toLocaleString", "valueOf", "__proto__",
    "__defineGetter__", "__defineSetter__", "__lookupGetter__", "__lookupSetter__"}
}
