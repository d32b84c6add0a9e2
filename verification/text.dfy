/**
  String helpers shared by the extension's scripts: the character classes its
  regular expressions use, case mapping, trimming, searching, splitting and
  decimal numerals.  Strings are sequences of Unicode scalar values.
 */
module Text {
  import opened Wrappers

  type String = seq<char>

  // ---------------------------------------------------------------------
  // Character classes
  // ---------------------------------------------------------------------

  /** JavaScript's `\s` (and the set `trim` removes): the WhiteSpace and
      LineTerminator code points of ECMA-262. */
  predicate IsSpace(c: char) {
    || c == ' ' || c == '\t' || c == '\n' || c == '\r'
    || c == '\U{0B}' || c == '\U{0C}' || c == '\U{A0}' || c == '\U{1680}'
    || ('\U{2000}' <= c <= '\U{200A}')
    || c == '\U{2028}' || c == '\U{2029}' || c == '\U{202F}' || c == '\U{205F}'
    || c == '\U{3000}' || c == '\U{FEFF}'
  }

  /** JavaScript's `\d`: ASCII digits only. */
  predicate IsAsciiDigit(c: char) {
    '0' <= c <= '9'
  }

  /** The Latin part of Unicode's `\p{L}`: ASCII letters, the Latin-1 letters
      and Latin Extended-A/B. */
  predicate IsLetter(c: char) {
    || ('a' <= c <= 'z') || ('A' <= c <= 'Z')
    || c == '\U{AA}' || c == '\U{B5}' || c == '\U{BA}'
    || ('\U{C0}' <= c <= '\U{24F}' && c != '\U{D7}' && c != '\U{F7}')
  }

  /** The Latin-1 part of Unicode's `\p{N}`: ASCII digits, superscripts and
      vulgar fractions. */
  predicate IsDigit(c: char) {
    || IsAsciiDigit(c)
    || c == '\U{B2}' || c == '\U{B3}' || c == '\U{B9}'
    || ('\U{BC}' <= c <= '\U{BE}')
  }

  predicate IsAsciiUpper(c: char) {
    'A' <= c <= 'Z'
  }

  predicate IsAsciiLower(c: char) {
    'a' <= c <= 'z'
  }

  // ---------------------------------------------------------------------
  // Case mapping
  // ---------------------------------------------------------------------

  /** The capitals of Latin Extended-A whose small letter is the next code
      point: the even members of the paired blocks U+0100-012F, U+0132-0137
      and U+014A-0177, and the odd members of U+0139-0148 and U+0179-017E. */
  predicate IsPairedCapital(c: char) {
    || (('\U{100}' <= c <= '\U{12F}' || '\U{132}' <= c <= '\U{137}' || '\U{14A}' <= c <= '\U{177}') && c as int % 2 == 0)
    || (('\U{139}' <= c <= '\U{148}' || '\U{179}' <= c <= '\U{17E}') && c as int % 2 == 1)
  }

  /** The small letters of the same blocks: the code point after a paired
      capital. */
  predicate IsPairedSmall(c: char) {
    || (('\U{100}' <= c <= '\U{12F}' || '\U{132}' <= c <= '\U{137}' || '\U{14A}' <= c <= '\U{177}') && c as int % 2 == 1)
    || (('\U{139}' <= c <= '\U{148}' || '\U{179}' <= c <= '\U{17E}') && c as int % 2 == 0)
  }

  /** A Latin-1 capital other than the multiplication sign. */
  predicate IsLatin1Capital(c: char) {
    '\U{C0}' <= c <= '\U{DE}' && c != '\U{D7}'
  }

  /** The capitals `LowerChar` maps to another character. */
  predicate HasSmallForm(c: char) {
    IsAsciiUpper(c) || IsLatin1Capital(c) || IsPairedCapital(c) || c == '\U{178}'
  }

  /** `toLowerCase` on one character, for the capitals of ASCII, Latin-1 and
      Latin Extended-A. */
  function LowerChar(c: char): (d: char)
    ensures IsAsciiUpper(c) ==> IsAsciiLower(d) && d as int == c as int + 32
    ensures IsLatin1Capital(c) ==> d as int == c as int + 32
    ensures IsPairedCapital(c) ==> IsPairedSmall(d) && d as int == c as int + 1
    ensures c == '\U{178}' ==> d == '\U{FF}'
    ensures !HasSmallForm(c) <==> d == c
    ensures !HasSmallForm(d)
    ensures IsAsciiDigit(d) <==> IsAsciiDigit(c)
    ensures IsSpace(d) <==> IsSpace(c)
  {
    if IsAsciiUpper(c) || IsLatin1Capital(c) then
      (c as int + 32) as char
    else if IsPairedCapital(c) then
      (c as int + 1) as char
    else if c == '\U{178}' then
      '\U{FF}'
    else
      c
  }

  /** Lowering twice is lowering once. */
  lemma LowerCharIdempotent(c: char)
    ensures LowerChar(LowerChar(c)) == LowerChar(c)
  {
  }

  /** The case folding of a regular expression's `i` flag without `u`: only
      ASCII letters fold. */
  function AsciiFold(c: char): (d: char)
    ensures IsAsciiUpper(c) ==> d as int == c as int + 32
    ensures !IsAsciiUpper(c) ==> d == c
  {
    if IsAsciiUpper(c) then (c as int + 32) as char else c
  }

  /** `toLowerCase` on a string, character by character. */
  function Lower(s: String): (r: String)
    ensures |r| == |s|
    ensures forall i :: 0 <= i < |s| ==> r[i] == LowerChar(s[i])
  {
    seq(|s|, i requires 0 <= i < |s| => LowerChar(s[i]))
  }

  /** Lowering a string twice is lowering it once. */
  lemma LowerIdempotent(s: String)
    ensures Lower(Lower(s)) == Lower(s)
  {
    forall i | 0 <= i < |s|
      ensures Lower(Lower(s))[i] == Lower(s)[i]
    {
      LowerCharIdempotent(s[i]);
    }
  }

  /** The small letters `UpperChar` maps to something else. */
  predicate HasCapitalForm(c: char) {
    || IsAsciiLower(c) || ('\U{DF}' <= c <= '\U{FF}' && c != '\U{F7}') || IsPairedSmall(c)
    || c == '\U{B5}' || c == '\U{131}' || c == '\U{149}' || c == '\U{17F}'
  }

  /** `toUpperCase` on one character, which may yield two ('ß' gives "SS",
      'ŉ' gives "ʼN"). */
  function UpperChar(c: char): (r: String)
    ensures 1 <= |r| <= 2
    ensures IsAsciiLower(c) ==> r == [(c as int - 32) as char] && IsAsciiUpper(r[0])
    ensures IsAsciiUpper(c) ==> r == [c]
    ensures IsPairedSmall(c) ==> r == [(c as int - 1) as char] && IsPairedCapital(r[0])
    ensures !HasCapitalForm(c) <==> r == [c]
  {
    if IsAsciiLower(c) || ('\U{E0}' <= c <= '\U{FE}' && c != '\U{F7}') then
      [(c as int - 32) as char]
    else if IsPairedSmall(c) then [(c as int - 1) as char]
    else if c == '\U{DF}' then "SS"
    else if c == '\U{FF}' then ['\U{178}']
    else if c == '\U{B5}' then ['\U{39C}']
    else if c == '\U{131}' then ['I']
    else if c == '\U{17F}' then ['S']
    else if c == '\U{149}' then ['\U{2BC}', 'N']
    else [c]
  }

  /** Upper-casing undoes lowering: every capital the model lowers comes
      back from its small letter. */
  lemma UpperOfLower(c: char)
    ensures HasSmallForm(c) ==> UpperChar(LowerChar(c)) == [c]
  {
  }

  // ---------------------------------------------------------------------
  // Trimming
  // ---------------------------------------------------------------------

  function TrimStart(s: String): (r: String)
    ensures |r| <= |s| && r == s[|s| - |r|..]
    ensures forall i :: 0 <= i < |s| - |r| ==> IsSpace(s[i])
    ensures |r| > 0 ==> !IsSpace(r[0])
  {
    if |s| > 0 && IsSpace(s[0]) then TrimStart(s[1..]) else s
  }

  function TrimEnd(s: String): (r: String)
    ensures |r| <= |s| && r == s[..|r|]
    ensures forall i :: |r| <= i < |s| ==> IsSpace(s[i])
    ensures |r| > 0 ==> !IsSpace(r[|r| - 1])
  {
    if |s| > 0 && IsSpace(s[|s| - 1]) then TrimEnd(s[..|s| - 1]) else s
  }

  /** Number of leading whitespace characters `trim` removes. */
  function TrimOffset(s: String): (k: nat)
    ensures k <= |s|
  {
    |s| - |TrimStart(s)|
  }

  /** `String.prototype.trim`: the slice of `s` left after removing the
      whitespace at both ends. */
  function Trim(s: String): (r: String)
    ensures TrimOffset(s) + |r| <= |s|
    ensures r == s[TrimOffset(s)..TrimOffset(s) + |r|]
    ensures forall i :: 0 <= i < TrimOffset(s) ==> IsSpace(s[i])
    ensures forall i :: TrimOffset(s) + |r| <= i < |s| ==> IsSpace(s[i])
    ensures |r| > 0 ==> !IsSpace(r[0]) && !IsSpace(r[|r| - 1])
  {
    TrimEnd(TrimStart(s))
  }

  /** A string without whitespace at either end is its own trim, and only such
      a string is. */
  lemma TrimFixpoint(s: String)
    ensures Trim(s) == s <==> (|s| == 0 || (!IsSpace(s[0]) && !IsSpace(s[|s| - 1])))
  {
    if |s| > 0 && !IsSpace(s[0]) && !IsSpace(s[|s| - 1]) {
      assert TrimStart(s) == s;
      assert TrimEnd(s) == s;
    }
  }

  lemma TrimIdempotent(s: String)
    ensures Trim(Trim(s)) == Trim(s)
  {
    TrimFixpoint(Trim(s));
  }

  /** A string is blank (`!s.trim()` in the source) when it is whitespace only. */
  predicate IsBlank(s: String) {
    |Trim(s)| == 0
  }

  lemma BlankIffAllSpace(s: String)
    ensures IsBlank(s) <==> forall i :: 0 <= i < |s| ==> IsSpace(s[i])
  {
    if |Trim(s)| > 0 {
      assert Trim(s)[0] == s[TrimOffset(s)];
    }
  }

  // ---------------------------------------------------------------------
  // Searching
  // ---------------------------------------------------------------------

  predicate OccursAt(s: String, sub: String, i: int) {
    0 <= i && i + |sub| <= |s| && s[i..i + |sub|] == sub
  }

  /** `String.prototype.includes`. */
  predicate Contains(s: String, sub: String) {
    exists i :: 0 <= i <= |s| && OccursAt(s, sub, i)
  }

  /** `String.prototype.startsWith`. */
  predicate StartsWith(s: String, prefix: String) {
    |prefix| <= |s| && s[..|prefix|] == prefix
  }

  function IndexFrom(s: String, sub: String, k: nat): (r: Option<nat>)
    requires k <= |s| + 1
    decreases |s| + 1 - k
    ensures r.Some? ==> k <= r.value && OccursAt(s, sub, r.value)
    ensures r.Some? ==> forall j :: k <= j < r.value ==> !OccursAt(s, sub, j)
    ensures r.None? ==> forall j :: k <= j ==> !OccursAt(s, sub, j)
  {
    if k + |sub| > |s| then None
    else if s[k..k + |sub|] == sub then Some(k)
    else IndexFrom(s, sub, k + 1)
  }

  /** `String.prototype.indexOf`: the first occurrence of `sub`, if any. */
  function IndexOf(s: String, sub: String): (r: Option<nat>)
    ensures r.Some? <==> Contains(s, sub)
    ensures r.Some? ==> OccursAt(s, sub, r.value)
    ensures r.Some? ==> forall j :: 0 <= j < r.value ==> !OccursAt(s, sub, j)
  {
    IndexFrom(s, sub, 0)
  }

  /** `s.replace(pattern, replacement)` with a string pattern: only the first
      occurrence is replaced. */
  function ReplaceFirst(s: String, pattern: String, replacement: String): (r: String)
    ensures !Contains(s, pattern) ==> r == s
    ensures Contains(s, pattern) ==> |r| == |s| - |pattern| + |replacement|
    ensures forall i :: OccursAt(s, pattern, i) && (forall j :: 0 <= j < i ==> !OccursAt(s, pattern, j)) ==>
      r == s[..i] + replacement + s[i + |pattern|..]
  {
    match IndexOf(s, pattern)
    case None => s
    case Some(i) => s[..i] + replacement + s[i + |pattern|..]
  }

  // ---------------------------------------------------------------------
  // Whitespace runs
  // ---------------------------------------------------------------------

  /** `s.replace(/\s+/g, rep)`: every maximal run of whitespace becomes one
      `rep`; every other character is kept in place. */
  function ReplaceSpaceRuns(s: String, rep: char): (r: String)
    decreases |s|
    ensures |r| <= |s|
    ensures |s| > 0 <==> |r| > 0
    ensures |s| > 0 && !IsSpace(s[0]) ==> r[0] == s[0]
    ensures |s| > 0 && IsSpace(s[0]) ==> r[0] == rep
    ensures forall i :: 0 <= i < |r| && IsSpace(r[i]) ==> r[i] == rep
    ensures forall i :: 0 <= i < |r| - 1 && IsSpace(r[i]) ==> !IsSpace(r[i + 1])
    ensures forall i :: 0 <= i < |r| && r[i] != rep ==> r[i] in s
  {
    if |s| == 0 then []
    else if IsSpace(s[0]) then
      var rest := TrimStart(s);
      assert |rest| < |s|;
      [rep] + ReplaceSpaceRuns(rest, rep)
    else
      [s[0]] + ReplaceSpaceRuns(s[1..], rep)
  }

  /** No whitespace other than the plain space, and no two spaces in a row. */
  predicate SingleSpaced(s: String) {
    && (forall i :: 0 <= i < |s| && IsSpace(s[i]) ==> s[i] == ' ')
    && (forall i :: 0 <= i < |s| - 1 && s[i] == ' ' ==> s[i + 1] != ' ')
  }

  /** Collapsing whitespace leaves a single-spaced string alone. */
  lemma SingleSpacedTail(s: String)
    requires |s| > 0 && SingleSpaced(s)
    ensures SingleSpaced(s[1..])
    ensures IsSpace(s[0]) ==> s[0] == ' ' && (|s| > 1 ==> !IsSpace(s[1]))
  {
    var t := s[1..];
    forall i | 0 <= i < |t| && IsSpace(t[i])
      ensures t[i] == ' '
    {
      assert t[i] == s[i + 1];
    }
    forall i | 0 <= i < |t| - 1 && t[i] == ' '
      ensures t[i + 1] != ' '
    {
      assert t[i] == s[i + 1] && t[i + 1] == s[i + 2];
    }
  }

  lemma {:induction false} ReplaceSpaceRunsFixpoint(s: String)
    requires SingleSpaced(s)
    ensures ReplaceSpaceRuns(s, ' ') == s
    decreases |s|
  {
    if |s| > 0 {
      var t := s[1..];
      SingleSpacedTail(s);
      ReplaceSpaceRunsFixpoint(t);
      if IsSpace(s[0]) {
        assert TrimStart(s) == t;
      }
      assert s == [s[0]] + t;
    }
  }

  /** Without whitespace there is nothing to collapse. */
  lemma {:induction false} ReplaceSpaceRunsNoSpace(s: String, rep: char)
    requires forall i :: 0 <= i < |s| ==> !IsSpace(s[i])
    ensures ReplaceSpaceRuns(s, rep) == s
    decreases |s|
  {
    if |s| > 0 {
      ReplaceSpaceRunsNoSpace(s[1..], rep);
      assert s == [s[0]] + s[1..];
    }
  }

  // ---------------------------------------------------------------------
  // Splitting
  // ---------------------------------------------------------------------

  /** `s.split(sep)` for a one-character separator. */
  function Split(s: String, sep: char): (parts: seq<String>)
    ensures |parts| >= 1
    ensures forall k :: 0 <= k < |parts| ==> sep !in parts[k]
  {
    if |s| == 0 then [[]]
    else
      var rest := Split(s[1..], sep);
      if s[0] == sep then [[]] + rest
      else [[s[0]] + rest[0]] + rest[1..]
  }

  /** `parts.join(sep)`. */
  function Join(parts: seq<String>, sep: char): String {
    if |parts| == 0 then []
    else if |parts| == 1 then parts[0]
    else parts[0] + [sep] + Join(parts[1..], sep)
  }

  /** Splitting loses nothing: joining the parts back gives the input. */
  lemma {:induction false} JoinSplit(s: String, sep: char)
    ensures Join(Split(s, sep), sep) == s
  {
    if |s| > 0 {
      JoinSplit(s[1..], sep);
      var rest := Split(s[1..], sep);
      if s[0] != sep {
        if |rest| == 1 {
          assert Split(s, sep) == [[s[0]] + rest[0]];
        } else {
          assert Split(s, sep)[1..] == rest[1..];
        }
      } else {
        assert Split(s, sep)[1..] == rest;
      }
    }
  }

  // ---------------------------------------------------------------------
  // Decimal numerals
  // ---------------------------------------------------------------------

  predicate AllAsciiDigits(s: String) {
    forall i :: 0 <= i < |s| ==> IsAsciiDigit(s[i])
  }

  function DigitValue(c: char): (d: nat)
    requires IsAsciiDigit(c)
    ensures d < 10
  {
    c as int - '0' as int
  }

  function DigitChar(d: nat): (c: char)
    requires d < 10
    ensures IsAsciiDigit(c) && DigitValue(c) == d
  {
    ('0' as int + d) as char
  }

  /** The value of a run of decimal digits (`parseInt` / `Number` on one). */
  function DecimalValue(s: String): nat
    requires AllAsciiDigits(s)
  {
    if |s| == 0 then 0 else DecimalValue(s[..|s| - 1]) * 10 + DigitValue(s[|s| - 1])
  }

  /** `n.toString()` for a natural number: the shortest decimal numeral. */
  function NatToString(n: nat): (r: String)
    ensures |r| > 0 && AllAsciiDigits(r)
    ensures DecimalValue(r) == n
    ensures r[0] == '0' ==> n == 0 && |r| == 1
  {
    if n < 10 then
      [DigitChar(n)]
    else
      var prefix := NatToString(n / 10);
      var r := prefix + [DigitChar(n % 10)];
      assert r[..|r| - 1] == prefix;
      r
  }

  /** `i.toString()` for an integer. */
  function IntToString(i: int): (r: String)
    ensures |r| > 0
    ensures i >= 0 ==> r == NatToString(i)
    ensures i < 0 ==> r == "-" + NatToString(-i)
  {
    if i < 0 then "-" + NatToString(-i) else NatToString(i)
  }
}
