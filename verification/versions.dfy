/**
  Dotted version numbers and the service worker's `compareVersions`
  (background.js): split on ".", read each component as a number (anything
  that is not a decimal numeral reads as 0), pad the shorter list with
  zeros, and compare lexicographically.
 */
module Versions {
  import opened Text
  import Sorting

  /** `Number(part) || 0` for the component forms a version string uses:
      a decimal numeral, possibly surrounded by whitespace; the empty
      component and every non-numeral read as 0. */
  function ComponentValue(part: String): nat {
    var t := Trim(part);
    if AllAsciiDigits(t) then DecimalValue(t) else 0
  }

  /** `parts.map(Number)`, with `|| 0` applied. */
  function Values(parts: seq<String>): (ps: seq<nat>)
    ensures |ps| == |parts|
    ensures forall k :: 0 <= k < |ps| ==> ps[k] == ComponentValue(parts[k])
  {
    if |parts| == 0 then [] else [ComponentValue(parts[0])] + Values(parts[1..])
  }

  /** `version.split('.').map(Number)`, with `|| 0` applied. */
  function Components(v: String): (ps: seq<nat>)
    ensures |ps| == |Split(v, '.')| >= 1
    ensures forall k :: 0 <= k < |ps| ==> ps[k] == ComponentValue(Split(v, '.')[k])
  {
    Values(Split(v, '.'))
  }

  /** `parts[i] || 0`: components past the end read as 0. */
  function PartAt(ps: seq<nat>, i: nat): nat {
    if i < |ps| then ps[i] else 0
  }

  function Max(a: nat, b: nat): nat {
    if a < b then b else a
  }

  /** The two lists agree on every index from `i` on (zero-padded). */
  ghost predicate AgreeFrom(a: seq<nat>, b: seq<nat>, i: nat) {
    forall j: nat :: i <= j ==> PartAt(a, j) == PartAt(b, j)
  }

  /** `a` is smaller at `j`, and the lists agree on `[i, j)`. */
  ghost predicate FirstLessAt(a: seq<nat>, b: seq<nat>, i: nat, j: nat) {
    i <= j && PartAt(a, j) < PartAt(b, j) && forall k: nat :: i <= k < j ==> PartAt(a, k) == PartAt(b, k)
  }

  /** The comparison loop of `compareVersions`, from index `i`. */
  function CompareFrom(a: seq<nat>, b: seq<nat>, i: nat): (r: int)
    decreases Max(|a|, |b|) - i
    ensures r == -1 || r == 0 || r == 1
    ensures r == 0 <==> AgreeFrom(a, b, i)
    ensures r == -1 <==> exists j: nat :: FirstLessAt(a, b, i, j)
    ensures r == 1 <==> exists j: nat :: FirstLessAt(b, a, i, j)
  {
    if i >= Max(|a|, |b|) then
      assert AgreeFrom(a, b, i);
      0
    else if PartAt(a, i) < PartAt(b, i) then
      assert FirstLessAt(a, b, i, i);
      assert !AgreeFrom(a, b, i);
      -1
    else if PartAt(a, i) > PartAt(b, i) then
      assert FirstLessAt(b, a, i, i);
      assert !AgreeFrom(a, b, i);
      1
    else
      var r := CompareFrom(a, b, i + 1);
      assert AgreeFrom(a, b, i) <==> AgreeFrom(a, b, i + 1);
      FirstLessShift(a, b, i, i + 1);
      FirstLessShift(b, a, i, i + 1);
      r
  }

  /** Past an index where the lists agree, the first difference is the same. */
  lemma FirstLessShift(a: seq<nat>, b: seq<nat>, i: nat, next: nat)
    requires next == i + 1 && PartAt(a, i) == PartAt(b, i)
    ensures (exists j: nat :: FirstLessAt(a, b, i, j)) <==> (exists j: nat :: FirstLessAt(a, b, next, j))
  {
    if exists j: nat :: FirstLessAt(a, b, i, j) {
      var j: nat :| FirstLessAt(a, b, i, j);
      assert FirstLessAt(a, b, next, j);
    }
    if exists j: nat :: FirstLessAt(a, b, next, j) {
      var j: nat :| FirstLessAt(a, b, next, j);
      assert FirstLessAt(a, b, i, j);
    }
  }

  /** `compareVersions(version1, version2)`: -1, 0 or 1. */
  function CompareVersions(v1: String, v2: String): (r: int)
    ensures r == -1 || r == 0 || r == 1
    ensures r == 0 <==> AgreeFrom(Components(v1), Components(v2), 0)
    ensures r == -1 <==> exists j: nat :: FirstLessAt(Components(v1), Components(v2), 0, j)
  {
    CompareFrom(Components(v1), Components(v2), 0)
  }

  /** One step of the loop, valid at every index (past both ends too). */
  lemma CompareStep(a: seq<nat>, b: seq<nat>, i: nat)
    ensures CompareFrom(a, b, i) ==
      if PartAt(a, i) < PartAt(b, i) then -1
      else if PartAt(a, i) > PartAt(b, i) then 1
      else CompareFrom(a, b, i + 1)
  {
    if i >= Max(|a|, |b|) {
      assert AgreeFrom(a, b, i + 1);
    }
  }

  /** Swapping the arguments negates the result. */
  lemma {:induction false} CompareFromAntisymmetric(a: seq<nat>, b: seq<nat>, i: nat)
    ensures CompareFrom(a, b, i) == -CompareFrom(b, a, i)
    decreases Max(|a|, |b|) - i
  {
    if i < Max(|a|, |b|) {
      CompareFromAntisymmetric(a, b, i + 1);
    }
  }

  /** The order is transitive. */
  lemma {:induction false} CompareFromTransitive(a: seq<nat>, b: seq<nat>, c: seq<nat>, i: nat)
    requires CompareFrom(a, b, i) <= 0 && CompareFrom(b, c, i) <= 0
    ensures CompareFrom(a, c, i) <= 0
    decreases Max(Max(|a|, |b|), |c|) - i
  {
    if i < Max(Max(|a|, |b|), |c|) {
      CompareStep(a, b, i);
      CompareStep(b, c, i);
      CompareStep(a, c, i);
      if PartAt(a, i) == PartAt(b, i) == PartAt(c, i) {
        CompareFromTransitive(a, b, c, i + 1);
      }
    }
  }

  lemma CompareVersionsAntisymmetric(v1: String, v2: String)
    ensures CompareVersions(v1, v2) == -CompareVersions(v2, v1)
  {
    CompareFromAntisymmetric(Components(v1), Components(v2), 0);
  }

  lemma CompareVersionsTransitive(v1: String, v2: String, v3: String)
    ensures CompareVersions(v1, v2) <= 0 && CompareVersions(v2, v3) <= 0 ==> CompareVersions(v1, v3) <= 0
  {
    if CompareVersions(v1, v2) <= 0 && CompareVersions(v2, v3) <= 0 {
      CompareFromTransitive(Components(v1), Components(v2), Components(v3), 0);
    }
  }

  lemma CompareVersionsReflexive(v: String)
    ensures CompareVersions(v, v) == 0
  {
  }

  /** Splitting at a separator splits the two sides independently. */
  lemma {:induction false} SplitAtSeparator(s: String, t: String, sep: char)
    ensures Split(s + [sep] + t, sep) == Split(s, sep) + Split(t, sep)
    decreases |s|
  {
    if |s| == 0 {
      assert s + [sep] + t == [sep] + t;
      SplitCons(sep, t, sep);
    } else {
      SplitAtSeparator(s[1..], t, sep);
      SplitAtSeparatorStep(s, t, sep);
    }
  }

  /** The inductive step of `SplitAtSeparator`. */
  lemma SplitAtSeparatorStep(s: String, t: String, sep: char)
    requires |s| > 0
    requires Split(s[1..] + [sep] + t, sep) == Split(s[1..], sep) + Split(t, sep)
    ensures Split(s + [sep] + t, sep) == Split(s, sep) + Split(t, sep)
  {
    var rest := s[1..] + [sep] + t;
    assert Split(s + [sep] + t, sep) == Split([s[0]] + rest, sep) by {
      assert s + [sep] + t == [s[0]] + rest;
    }
    assert Split(s, sep) == Split([s[0]] + s[1..], sep) by {
      assert s == [s[0]] + s[1..];
    }
    SplitCons(s[0], rest, sep);
    SplitCons(s[0], s[1..], sep);
    CombineParts(s[0], sep, Split(s + [sep] + t, sep), Split(s, sep), Split(s[1..], sep), Split(t, sep));
  }

  /** The list identity behind one step of `SplitAtSeparator`. */
  lemma CombineParts(c: char, sep: char, x: seq<String>, y: seq<String>, a: seq<String>, b: seq<String>)
    requires |a| > 0
    requires x == if c == sep then [[]] + (a + b) else [[c] + (a + b)[0]] + (a + b)[1..]
    requires y == if c == sep then [[]] + a else [[c] + a[0]] + a[1..]
    ensures x == y + b
  {
    if c != sep {
      assert (a + b)[0] == a[0];
      assert (a + b)[1..] == a[1..] + b;
    }
  }

  /** One step of `Split`. */
  lemma SplitCons(c: char, t: String, sep: char)
    ensures Split([c] + t, sep) ==
      if c == sep then [[]] + Split(t, sep) else [[c] + Split(t, sep)[0]] + Split(t, sep)[1..]
  {
    assert ([c] + t)[0] == c && ([c] + t)[1..] == t;
  }

  /** A trailing ".0" changes nothing: "1.0" and "1.0.0" compare equal. */
  lemma TrailingZeroIsEqual(v: String)
    ensures CompareVersions(v, v + ".0") == 0
  {
    var a := Components(v);
    var b := Components(v + ".0");
    ComponentsTrailingZero(v);
    assert forall j: nat :: PartAt(a, j) == PartAt(b, j) by {
      forall j: nat
        ensures PartAt(a, j) == PartAt(b, j)
      {
        if j < |a| {
          assert b[j] == a[j];
        }
      }
    }
    assert AgreeFrom(a, b, 0);
  }

  lemma ComponentsTrailingZero(v: String)
    ensures Components(v + ".0") == Components(v) + [0]
  {
    DotZero(v);
    ComponentsAppend(v, "0");
    ComponentsOfZero();
  }

  lemma DotZero(v: String)
    ensures v + ".0" == v + ['.'] + "0"
  {
  }

  lemma ComponentsOfZero()
    ensures Components("0") == [0]
  {
    SplitZero();
    ComponentZero();
    assert ["0"][1..] == [];
  }

  /** The components of two versions joined by a dot. */
  lemma ComponentsAppend(v: String, w: String)
    ensures Components(v + ['.'] + w) == Components(v) + Components(w)
  {
    SplitAtSeparator(v, w, '.');
    ValuesOfConcat(Split(v, '.'), Split(w, '.'));
  }

  /** Reading the parts of a concatenation reads each side. */
  lemma {:induction false} ValuesOfConcat(p: seq<String>, q: seq<String>)
    ensures Values(p + q) == Values(p) + Values(q)
    decreases |p|
  {
    if |p| == 0 {
      assert p + q == q;
    } else {
      assert (p + q)[0] == p[0] && (p + q)[1..] == p[1..] + q;
      ValuesOfConcat(p[1..], q);
      Sorting.ConcatAssoc([ComponentValue(p[0])], Values(p[1..]), Values(q));
    }
  }

  lemma SplitZero()
    ensures Split("0", '.') == ["0"]
  {
    var z := "0";
    assert z[1..] == [] && z[0] != '.';
    assert Split([], '.') == [[]];
    assert Split(z, '.') == [[z[0]] + Split([], '.')[0]] + Split([], '.')[1..];
    assert [z[0]] + Split([], '.')[0] == z;
  }

  lemma ComponentZero()
    ensures ComponentValue("0") == 0
  {
    assert Trim("0") == "0" by { TrimFixpoint("0"); }
    assert DecimalValue("0") == DecimalValue("") * 10 + DigitValue('0');
  }
}
