/**
  The content script's pure rules (content.js): normalising scraped text,
  classifying GPTs, reading ids out of links, estimating message counts,
  turning scraped elements into records, deduplicating them, and answering
  the extension's messages.

  The DOM is not modelled: each scraped element is described by what the
  selector cascades found in it (`GptElement`, `ConversationElement`).
 */
module Scraper {
  import opened Wrappers
  import opened Text
  import opened Records
  import Dedup

  // ---------------------------------------------------------------------
  // cleanText
  // ---------------------------------------------------------------------

  /** The longest text `cleanText` returns. */
  const MaxTextLength: nat := 200

  /** Characters `cleanText` keeps: letters, digits, whitespace and `-.,!?()`. */
  predicate CleanChar(c: char) {
    IsLetter(c) || IsDigit(c) || IsSpace(c) || c in "-.,!?()"
  }

  /** The only whitespace is the plain space. */
  predicate PlainSpaced(s: String) {
    forall i :: 0 <= i < |s| && IsSpace(s[i]) ==> s[i] == ' '
  }

  /** `replace(/[^\p{L}\p{N}\s\-.,!?()]/gu, '')`. */
  function KeepCleanChars(s: String): (r: String)
    ensures |r| <= |s|
    ensures forall i :: 0 <= i < |r| ==> CleanChar(r[i])
    ensures PlainSpaced(s) ==> PlainSpaced(r)
    ensures (forall i :: 0 <= i < |s| ==> CleanChar(s[i])) ==> r == s
  {
    if |s| == 0 then []
    else if CleanChar(s[0]) then [s[0]] + KeepCleanChars(s[1..])
    else KeepCleanChars(s[1..])
  }

  /** `cleanText`: collapse whitespace runs to one space, drop every character
      outside `CleanChar`, trim, and cut to 200 characters.  A missing or
      empty text gives the empty string. */
  function CleanText(text: Option<String>): (r: String)
    ensures |r| <= MaxTextLength
    ensures text.None? || text == Some([]) ==> r == []
    ensures |r| > 0 ==> !IsSpace(r[0])
  {
    match text
    case None => []
    case Some(s) =>
      if |s| == 0 then []
      else Truncate(Trim(KeepCleanChars(ReplaceSpaceRuns(s, ' '))), MaxTextLength)
  }

  /** `t.substring(0, n)`. */
  function Truncate(t: String, n: nat): (r: String)
    ensures |r| <= n && |r| <= |t| && r == t[..|r|]
    ensures |t| <= n ==> r == t
  {
    if |t| <= n then t else t[..n]
  }

  /** What `cleanText` leaves: only allowed characters, no whitespace but the
      plain space, and no character that was not in the input apart from
      spaces. */
  lemma CleanTextShape(text: Option<String>)
    ensures forall i :: 0 <= i < |CleanText(text)| ==>
      CleanChar(CleanText(text)[i]) && (IsSpace(CleanText(text)[i]) ==> CleanText(text)[i] == ' ')
    ensures text.Some? ==> forall i :: 0 <= i < |CleanText(text)| && CleanText(text)[i] != ' ' ==>
      CleanText(text)[i] in text.value
  {
    if text.Some? && |text.value| > 0 {
      var s := text.value;
      var collapsed := ReplaceSpaceRuns(s, ' ');
      var kept := KeepCleanChars(collapsed);
      var r := CleanText(text);
      assert r == Truncate(Trim(kept), MaxTextLength);
      forall i | 0 <= i < |r|
        ensures CleanChar(r[i]) && (IsSpace(r[i]) ==> r[i] == ' ') && (r[i] != ' ' ==> r[i] in s)
      {
        var k := TruncatedTrimIndex(kept, i);
        KeptFromInput(s, k);
      }
    }
  }

  /** Position in `t` of the `i`th character of the truncated trimmed text. */
  lemma TruncatedTrimIndex(t: String, i: int) returns (k: int)
    requires 0 <= i < |Truncate(Trim(t), MaxTextLength)|
    ensures 0 <= k < |t| && Truncate(Trim(t), MaxTextLength)[i] == t[k]
  {
    var tt := Trim(t);
    assert Truncate(tt, MaxTextLength)[i] == tt[i];
    k := TrimOffset(t) + i;
  }

  /** Filtering invents no character. */
  lemma {:induction false} KeepCleanCharsFromInput(s: String, k: int)
    requires 0 <= k < |KeepCleanChars(s)|
    ensures KeepCleanChars(s)[k] in s
    decreases |s|
  {
    if CleanChar(s[0]) {
      if k > 0 {
        KeepCleanCharsFromInput(s[1..], k - 1);
      }
    } else {
      KeepCleanCharsFromInput(s[1..], k);
    }
  }

  /** A character kept after collapsing and filtering is clean, is a plain
      space if it is whitespace, and otherwise comes from the input. */
  lemma KeptFromInput(s: String, k: int)
    ensures var kept := KeepCleanChars(ReplaceSpaceRuns(s, ' '));
      0 <= k < |kept| ==>
        && CleanChar(kept[k]) && (IsSpace(kept[k]) ==> kept[k] == ' ')
        && (kept[k] != ' ' ==> kept[k] in s)
  {
    var collapsed := ReplaceSpaceRuns(s, ' ');
    var kept := KeepCleanChars(collapsed);
    if 0 <= k < |kept| {
      assert PlainSpaced(collapsed);
      KeepCleanCharsFromInput(collapsed, k);
      var j :| 0 <= j < |collapsed| && collapsed[j] == kept[k];
    }
  }

  /** Text already in the shape `cleanText` produces. */
  predicate IsCleanForm(s: String) {
    && |s| <= MaxTextLength
    && (forall i :: 0 <= i < |s| ==> CleanChar(s[i]))
    && SingleSpaced(s)
    && (|s| > 0 ==> !IsSpace(s[0]) && !IsSpace(s[|s| - 1]))
  }

  /** Clean text passes through `cleanText` unchanged. */
  lemma CleanTextFixpoint(s: String)
    requires IsCleanForm(s)
    ensures CleanText(Some(s)) == s
  {
    if |s| > 0 {
      ReplaceSpaceRunsFixpoint(s);
      TrimFixpoint(s);
    }
  }

  /** The unit test's accented name survives unchanged. */
  lemma CleanTextKeepsAccents()
    ensures CleanText(Some("Café crème")) == "Café crème"
  {
    var s := "Café crème";
    assert forall i :: 0 <= i < |s| ==> CleanChar(s[i]);
    assert SingleSpaced(s);
    CleanTextFixpoint(s);
  }

  /** Filtering distributes over concatenation. */
  lemma {:induction false} KeepCleanCharsAppend(u: String, v: String)
    ensures KeepCleanChars(u + v) == KeepCleanChars(u) + KeepCleanChars(v)
    decreases |u|
  {
    if |u| == 0 {
      assert u + v == v;
    } else {
      assert (u + v)[0] == u[0];
      assert (u + v)[1..] == u[1..] + v;
      KeepCleanCharsAppend(u[1..], v);
    }
  }

  /** Dropping a character between two spaces leaves a double space ("a & b"
      becomes "a  b"): the output of `cleanText` is not always single-spaced,
      so a second pass can change it. */
  lemma CleanTextCanLeaveDoubleSpace(a: char, x: char, b: char)
    requires CleanChar(a) && !IsSpace(a) && CleanChar(b) && !IsSpace(b)
    requires !CleanChar(x) && !IsSpace(x)
    ensures CleanText(Some([a, ' ', x, ' ', b])) == [a, ' ', ' ', b]
    ensures !IsCleanForm(CleanText(Some([a, ' ', x, ' ', b])))
  {
    var s := [a, ' ', x, ' ', b];
    SpacedTripleCollapsed(a, x, b);
    SpacedTripleFiltered(a, x, b);
    SpacedPairTrimmed(a, b);
    CleanTextShortUnfold(s);
    DoubleSpaceNotClean(a, b);
  }

  lemma DoubleSpaceNotClean(a: char, b: char)
    ensures !IsCleanForm([a, ' ', ' ', b])
  {
    var t := [a, ' ', ' ', b];
    assert t[1] == ' ' && t[2] == ' ';
    assert !SingleSpaced(t);
  }

  /** A result within the length limit is not truncated. */
  lemma CleanTextShortUnfold(s: String)
    requires |s| > 0
    ensures |Trim(KeepCleanChars(ReplaceSpaceRuns(s, ' ')))| <= MaxTextLength ==>
      CleanText(Some(s)) == Trim(KeepCleanChars(ReplaceSpaceRuns(s, ' ')))
  {
  }

  lemma SpacedPairTrimmed(a: char, b: char)
    requires !IsSpace(a) && !IsSpace(b)
    ensures Trim([a, ' ', ' ', b]) == [a, ' ', ' ', b]
  {
    TrimFixpoint([a, ' ', ' ', b]);
  }

  lemma SpacedTripleCollapsed(a: char, x: char, b: char)
    requires !IsSpace(a) && !IsSpace(x) && !IsSpace(b)
    ensures ReplaceSpaceRuns([a, ' ', x, ' ', b], ' ') == [a, ' ', x, ' ', b]
  {
    assert SingleSpaced([a, ' ', x, ' ', b]);
    ReplaceSpaceRunsFixpoint([a, ' ', x, ' ', b]);
  }

  lemma SpacedTripleFiltered(a: char, x: char, b: char)
    requires CleanChar(a) && CleanChar(b) && !CleanChar(x)
    ensures KeepCleanChars([a, ' ', x, ' ', b]) == [a, ' ', ' ', b]
  {
    var u := [a, ' '];
    var w := [x, ' ', b];
    KeepCleanPair(a, ' ');
    DropUnclean(x, ' ', b);
    KeepCleanCharsAppend(u, w);
    assert u + w == [a, ' ', x, ' ', b];
    assert u + [' ', b] == [a, ' ', ' ', b];
  }

  lemma KeepCleanPair(c: char, d: char)
    requires CleanChar(c) && CleanChar(d)
    ensures KeepCleanChars([c, d]) == [c, d]
  {
    assert forall i :: 0 <= i < 2 ==> CleanChar([c, d][i]);
  }

  lemma DropUnclean(x: char, c: char, d: char)
    requires !CleanChar(x) && CleanChar(c) && CleanChar(d)
    ensures KeepCleanChars([x, c, d]) == [c, d]
  {
    assert [x, c, d][1..] == [c, d];
    KeepCleanPair(c, d);
  }

  // ---------------------------------------------------------------------
  // filterFallbackName
  // ---------------------------------------------------------------------

  /** `/^\d{1,2}\/\d{1,2}/`: the text starts like a day/month date. */
  predicate StartsLikeDate(t: String) {
    || (|t| >= 3 && IsAsciiDigit(t[0]) && t[1] == '/' && IsAsciiDigit(t[2]))
    || (|t| >= 4 && IsAsciiDigit(t[0]) && IsAsciiDigit(t[1]) && t[2] == '/' && IsAsciiDigit(t[3]))
  }

  /** `t` equals the lower-case ASCII `word` under the `i` flag. */
  predicate EqualsIgnoringCase(t: String, word: String) {
    |t| == |word| && forall i :: 0 <= i < |t| ==> AsciiFold(t[i]) == word[i]
  }

  /** `/^(today|hier)$/i`: a sidebar section heading, not a GPT name. */
  predicate IsDayHeading(t: String) {
    EqualsIgnoringCase(t, "today") || EqualsIgnoringCase(t, "hier")
  }

  /** `filterFallbackName`: the trimmed text, or "" when it is a day heading or
      starts like a date. */
  function FilterFallbackName(text: String): (r: String)
    ensures r == [] || r == Trim(text)
    ensures r == [] <==> |Trim(text)| == 0 || IsDayHeading(Trim(text)) || StartsLikeDate(Trim(text))
    ensures !IsDayHeading(r) && !StartsLikeDate(r)
  {
    var t := Trim(text);
    if IsDayHeading(t) || StartsLikeDate(t) then [] else t
  }

  /** The unit test's four cases. */
  lemma FilterFallbackNameToday()
    ensures FilterFallbackName("Today") == []
  {
    var t := "Today";
    assert !IsSpace(t[0]) && !IsSpace(t[4]);
    TrimFixpoint(t);
    assert AsciiFold(t[0]) == 't';
    assert EqualsIgnoringCase(t, "today");
  }

  lemma FilterFallbackNameHier()
    ensures FilterFallbackName("Hier") == []
  {
    var t := "Hier";
    assert !IsSpace(t[0]) && !IsSpace(t[3]);
    TrimFixpoint(t);
    assert AsciiFold(t[0]) == 'h';
    assert EqualsIgnoringCase(t, "hier");
  }

  lemma FilterFallbackNameDate()
    ensures FilterFallbackName("12/01/23") == []
  {
    var t := "12/01/23";
    assert |t| == 8 && !IsSpace(t[0]) && !IsSpace(t[7]);
    TrimFixpoint(t);
    assert IsAsciiDigit(t[0]) && IsAsciiDigit(t[1]) && t[2] == '/' && IsAsciiDigit(t[3]);
  }

  lemma FilterFallbackNameKeepsName()
    ensures FilterFallbackName("My GPT") == "My GPT"
  {
    TrimFixpoint("My GPT");
    assert !EqualsIgnoringCase("My GPT", "today") by { assert |"My GPT"| != |"today"|; }
    assert !EqualsIgnoringCase("My GPT", "hier") by { assert |"My GPT"| != |"hier"|; }
    assert !StartsLikeDate("My GPT") by { assert !IsAsciiDigit('M'); }
  }

  // ---------------------------------------------------------------------
  // categorizeGPT
  // ---------------------------------------------------------------------

  /** The categories `categorizeGPT` tries, in declaration order. */
  const CategoryNames: seq<String> :=
    ["writing", "coding", "analysis", "creative", "business", "education"]

  /** The keywords of each category of `CategoryNames`. */
  const CategoryKeywords: seq<seq<String>> := [
    ["écriture", "write", "rédaction", "texte", "article", "blog", "content"],
    ["code", "programming", "développement", "dev", "python", "javascript", "html"],
    ["analyse", "analysis", "data", "données", "rapport", "statistique"],
    ["créatif", "creative", "design", "art", "image", "logo", "dessin"],
    ["business", "marketing", "vente", "commercial", "entreprise"],
    ["éducation", "education", "apprentissage", "cours", "tuteur"]
  ]

  lemma CategoryNamesAreDefaults(k: int)
    requires 0 <= k < |CategoryNames|
    ensures CategoryNames[k] in DefaultCategories && CategoryNames[k] != "other"
  {
    assert DefaultCategories == CategoryNames + ["other"];
  }

  /** The text `categorizeGPT` searches: name and description, lower-cased. */
  function CategoryText(name: String, description: String): String {
    Lower(name + " " + description)
  }

  /** Some keyword of category `k` occurs in `text`. */
  predicate MatchesCategory(text: String, k: int)
    requires 0 <= k < |CategoryKeywords|
  {
    exists w :: w in CategoryKeywords[k] && Contains(text, w)
  }

  /** The first category at or after `k` that matches, or `|CategoryNames|`. */
  function FirstMatchingCategory(text: String, k: nat): (r: nat)
    requires k <= |CategoryKeywords|
    decreases |CategoryKeywords| - k
    ensures k <= r <= |CategoryKeywords|
    ensures r < |CategoryKeywords| ==> MatchesCategory(text, r)
    ensures forall j :: k <= j < r ==> !MatchesCategory(text, j)
  {
    if k == |CategoryKeywords| then k
    else if MatchesCategory(text, k) then k
    else FirstMatchingCategory(text, k + 1)
  }

  /** `categorizeGPT`: the first category, in declaration order, one of whose
      keywords occurs in the lower-cased name and description; "other" when
      none does. */
  function CategorizeGpt(name: String, description: String): (r: String)
    ensures r in DefaultCategories
    ensures r == "other" <==>
      forall k :: 0 <= k < |CategoryKeywords| ==> !MatchesCategory(CategoryText(name, description), k)
    ensures r != "other" ==>
      exists k :: 0 <= k < |CategoryNames| && CategoryNames[k] == r
        && MatchesCategory(CategoryText(name, description), k)
        && forall j :: 0 <= j < k ==> !MatchesCategory(CategoryText(name, description), j)
  {
    var k := FirstMatchingCategory(CategoryText(name, description), 0);
    if k < |CategoryNames| then
      CategoryNamesAreDefaults(k);
      CategoryNames[k]
    else
      "other"
  }

  // ---------------------------------------------------------------------
  // Ids in links: /\/g\/([^/?]+)/ and /\/c\/([^/?]+)/
  // ---------------------------------------------------------------------

  const GptMarker: String := "/g/"
  const ConversationMarker: String := "/c/"

  /** Characters of `[^/?]`. */
  predicate SegmentChar(c: char) {
    c != '/' && c != '?'
  }

  /** End of the run of segment characters starting at `k`. */
  function SegmentEnd(s: String, k: nat): (e: nat)
    requires k <= |s|
    decreases |s| - k
    ensures k <= e <= |s|
    ensures forall i :: k <= i < e ==> SegmentChar(s[i])
    ensures e < |s| ==> !SegmentChar(s[e])
  {
    if k < |s| && SegmentChar(s[k]) then SegmentEnd(s, k + 1) else k
  }

  /** The regular expression matches at `p`: the marker, then at least one
      segment character. */
  predicate SegmentMatchAt(link: String, marker: String, p: int) {
    OccursAt(link, marker, p) && p + |marker| < |link| && SegmentChar(link[p + |marker|])
  }

  /** `p` is the leftmost match. */
  predicate FirstSegmentMatchAt(link: String, marker: String, p: int) {
    SegmentMatchAt(link, marker, p) && forall q :: 0 <= q < p ==> !SegmentMatchAt(link, marker, q)
  }

  function SegmentMatchFrom(link: String, marker: String, k: nat): (r: Option<nat>)
    requires k <= |link| + 1
    decreases |link| + 1 - k
    ensures r.Some? ==> k <= r.value && SegmentMatchAt(link, marker, r.value)
    ensures r.Some? ==> forall q :: k <= q < r.value ==> !SegmentMatchAt(link, marker, q)
    ensures r.None? ==> forall q :: k <= q ==> !SegmentMatchAt(link, marker, q)
  {
    if k + |marker| >= |link| then None
    else if SegmentMatchAt(link, marker, k) then Some(k)
    else SegmentMatchFrom(link, marker, k + 1)
  }

  /** `link.match(/\/g\/([^/?]+)/)?.[1]` (for `marker` "/g/"): the maximal run
      of `[^/?]` characters after the leftmost marker that is followed by one. */
  function ExtractSegment(link: String, marker: String): (r: Option<String>)
    ensures r.None? <==> forall p :: !SegmentMatchAt(link, marker, p)
    ensures forall p :: FirstSegmentMatchAt(link, marker, p) ==>
      r == Some(link[p + |marker|..SegmentEnd(link, p + |marker|)])
    ensures r.Some? ==> |r.value| > 0 && forall i :: 0 <= i < |r.value| ==> SegmentChar(r.value[i])
    ensures r.Some? ==> Contains(link, marker)
  {
    match SegmentMatchFrom(link, marker, 0)
    case None => None
    case Some(p) =>
      var k := p + |marker|;
      Some(link[k..SegmentEnd(link, k)])
  }

  /** The leftmost marker need not be the one whose id is read:
      "/g//g/abc" yields "abc". */
  lemma ExtractSegmentSkipsEmptyMatch()
    ensures ExtractSegment("/g//g/abc", GptMarker) == Some("abc")
  {
    var link := "/g//g/abc";
    assert !SegmentMatchAt(link, GptMarker, 0) by { assert !SegmentChar(link[3]); }
    assert !SegmentMatchAt(link, GptMarker, 1) by { assert link[1..4][0] != GptMarker[0]; }
    assert !SegmentMatchAt(link, GptMarker, 2) by { assert link[2..5][1] != GptMarker[1]; }
    assert link[3..6] == GptMarker;
    assert FirstSegmentMatchAt(link, GptMarker, 3);
    assert SegmentEnd(link, 9) == 9;
    assert SegmentEnd(link, 8) == 9;
    assert SegmentEnd(link, 7) == 9;
    assert SegmentEnd(link, 6) == 9;
    assert link[6..9] == "abc";
    assert ExtractSegment(link, GptMarker) == Some(link[3 + |GptMarker|..SegmentEnd(link, 3 + |GptMarker|)]);
  }

  // ---------------------------------------------------------------------
  // estimateMessageCount: /(\d+)\s*messages?/i
  // ---------------------------------------------------------------------

  /** End of the run of ASCII digits starting at `k`. */
  function DigitRunEnd(s: String, k: nat): (e: nat)
    requires k <= |s|
    decreases |s| - k
    ensures k <= e <= |s|
    ensures AllAsciiDigits(s[k..e])
    ensures e < |s| ==> !IsAsciiDigit(s[e])
  {
    if k < |s| && IsAsciiDigit(s[k]) then DigitRunEnd(s, k + 1) else k
  }

  /** End of the run of whitespace starting at `k`. */
  function SpaceRunEnd(s: String, k: nat): (e: nat)
    requires k <= |s|
    decreases |s| - k
    ensures k <= e <= |s|
    ensures forall i :: k <= i < e ==> IsSpace(s[i])
    ensures e < |s| ==> !IsSpace(s[e])
  {
    if k < |s| && IsSpace(s[k]) then SpaceRunEnd(s, k + 1) else k
  }

  /** "message", in any ASCII case, at position `w`. */
  predicate MessageWordAt(s: String, w: nat) {
    w + 7 <= |s| && EqualsIgnoringCase(s[w..w + 7], "message")
  }

  /** The pattern matches at `p`.  Backtracking cannot help: giving back a
      digit or a space leaves a digit or a space where `\s` or `m` is needed. */
  predicate CountMatchAt(s: String, p: int) {
    0 <= p < |s| && IsAsciiDigit(s[p]) && MessageWordAt(s, SpaceRunEnd(s, DigitRunEnd(s, p)))
  }

  /** No match starts before `p`. */
  predicate FirstCountMatch(s: String, p: int) {
    forall q :: 0 <= q < p ==> !CountMatchAt(s, q)
  }

  function CountMatchFrom(s: String, k: nat): (r: Option<nat>)
    requires k <= |s|
    decreases |s| - k
    ensures r.Some? ==> k <= r.value && CountMatchAt(s, r.value)
    ensures r.Some? ==> forall q :: k <= q < r.value ==> !CountMatchAt(s, q)
    ensures r.None? ==> forall q :: k <= q ==> !CountMatchAt(s, q)
  {
    if k == |s| then None
    else if CountMatchAt(s, k) then Some(k)
    else CountMatchFrom(s, k + 1)
  }

  /** `estimateMessageCount`: the number before the leftmost "message(s)" in
      the element's text, or 1 when there is none. */
  function EstimateMessageCount(text: String): (n: nat)
    ensures (forall p :: !CountMatchAt(text, p)) ==> n == 1
    ensures forall p :: CountMatchAt(text, p) && FirstCountMatch(text, p) ==>
      n == DecimalValue(text[p..DigitRunEnd(text, p)])
  {
    match CountMatchFrom(text, 0)
    case None => 1
    case Some(p) =>
      FirstCountMatchUnique(text, p);
      DecimalValue(text[p..DigitRunEnd(text, p)])
  }

  /** There is only one leftmost match. */
  lemma FirstCountMatchUnique(s: String, p: nat)
    requires CountMatchFrom(s, 0) == Some(p)
    ensures forall q :: CountMatchAt(s, q) && FirstCountMatch(s, q) ==> q == p
  {
  }

  // ---------------------------------------------------------------------
  // Parsing scraped elements
  // ---------------------------------------------------------------------

  /** What the selector cascades found in a GPT element. */
  datatype GptElement = GptElement(
    link: Option<String>,         // the element's href, a descendant's or an ancestor's
    name: Option<String>,         // extractTextContent over the name selectors
    description: Option<String>,  // extractTextContent over the description selectors
    textContent: String,
    iconUrl: Option<String>,
    fallbackId: String            // what generateId() returns for this element
  )

  /** What the selector cascades found in a conversation element. */
  datatype ConversationElement = ConversationElement(
    link: Option<String>,
    title: Option<String>,
    lastMessage: Option<String>,
    textContent: String,
    starred: bool,                // isConversationStarred
    fallbackId: String
  )

  /** `found || fallback` for an extracted text. */
  function TextOr(found: Option<String>, fallback: String): (r: String)
    ensures |fallback| > 0 ==> |r| > 0
    ensures r == fallback || (found.Some? && r == found.value && |r| > 0)
  {
    match found
    case Some(t) => if |t| > 0 then t else fallback
    case None => fallback
  }

  /** The name taken from the element's own text when no name selector matched:
      its first line, unless that is a day heading or a date. */
  function FallbackName(textContent: String): (r: String)
    ensures |r| > 0
    ensures r == UnnamedGpt || r == Trim(Split(Trim(textContent), '\n')[0])
    ensures r != UnnamedGpt ==> !IsDayHeading(r) && !StartsLikeDate(r)
    ensures |Trim(textContent)| == 0 ==> r == UnnamedGpt
  {
    var firstLine := Split(Trim(textContent), '\n')[0];
    var filtered := FilterFallbackName(firstLine);
    if |filtered| > 0 then filtered else UnnamedGpt
  }

  const UnnamedGpt: String := "GPT Sans Nom"
  const DefaultDescription: String := "Aucune description disponible"
  const DefaultTitle: String := "Conversation sans titre"
  const DefaultPreview: String := "Pas de prévisualisation disponible"
  const ScraperSource: String := "chatgpt-sync"

  /** `parseGPTElement`: no record unless the link contains "/g/"; otherwise a
      fresh, unused, non-favourite GPT whose id is read from the link. */
  function ParseGpt(el: GptElement, now: int): (r: Option<Gpt>)
    ensures r.Some? <==> el.link.Some? && Contains(el.link.value, GptMarker)
    ensures r.Some? ==> r.value.url == el.link.value
    ensures r.Some? ==>
      r.value.id == ExtractSegment(el.link.value, GptMarker).GetOr(el.fallbackId)
    ensures r.Some? ==> |r.value.name| <= MaxTextLength && 0 < |r.value.description| <= MaxTextLength
    ensures r.Some? ==> r.value.category.Some? && r.value.category.value in DefaultCategories
    ensures r.Some? ==> !r.value.favorite && r.value.usageCount == Some(0)
    ensures r.Some? ==> r.value.lastUsed == Some(now) && r.value.createdAt == now
  {
    if el.link.None? || !Contains(el.link.value, GptMarker) then None
    else
      var link := el.link.value;
      var rawName :=
        match el.name
        case Some(n) => if |n| > 0 then n else FallbackName(el.textContent)
        case None => FallbackName(el.textContent);
      var name := CleanText(Some(rawName));
      var cleanedDescription := CleanText(el.description);
      var description := if |cleanedDescription| > 0 then cleanedDescription else DefaultDescription;
      var id := ExtractSegment(link, GptMarker).GetOr(el.fallbackId);
      Some(Gpt(id, name, description, el.iconUrl, link, Some(CategorizeGpt(name, description)),
               false, Some(0), Some(now), now, ScraperSource))
  }

  /** `parseConversationElement`: no record unless the link contains "/c/". */
  function ParseConversation(el: ConversationElement, now: int): (r: Option<Conversation>)
    ensures r.Some? <==> el.link.Some? && Contains(el.link.value, ConversationMarker)
    ensures r.Some? ==> r.value.url == el.link.value
    ensures r.Some? ==>
      r.value.id == ExtractSegment(el.link.value, ConversationMarker).GetOr(el.fallbackId)
    ensures r.Some? ==> |r.value.title| <= MaxTextLength && |r.value.lastMessage| <= MaxTextLength
    ensures r.Some? ==> r.value.messageCount == EstimateMessageCount(el.textContent)
    ensures r.Some? ==> r.value.category == Some("other") && r.value.starred == el.starred
    ensures r.Some? ==> r.value.updatedAt == now && r.value.createdAt == now
  {
    if el.link.None? || !Contains(el.link.value, ConversationMarker) then None
    else
      var link := el.link.value;
      var title := TextOr(el.title, DefaultTitle);
      var preview := TextOr(el.lastMessage, DefaultPreview);
      var id := ExtractSegment(link, ConversationMarker).GetOr(el.fallbackId);
      Some(Conversation(id, CleanText(Some(title)), CleanText(Some(preview)), link,
                        EstimateMessageCount(el.textContent), el.starred, Some("other"),
                        now, now, ScraperSource))
  }

  /** The records parsed from a list of elements, skipping those without one. */
  function ParseGpts(els: seq<GptElement>, now: int): (r: seq<Gpt>)
    ensures |r| <= |els|
    ensures forall k :: 0 <= k < |r| ==> Contains(r[k].url, GptMarker)
  {
    Collect(els, (e: GptElement) => ParseGpt(e, now))
  }

  function ParseConversations(els: seq<ConversationElement>, now: int): (r: seq<Conversation>)
    ensures |r| <= |els|
    ensures forall k :: 0 <= k < |r| ==> Contains(r[k].url, ConversationMarker)
  {
    Collect(els, (e: ConversationElement) => ParseConversation(e, now))
  }

  /** One element yields its record, or nothing. */
  lemma ParseGptsSingle(e: GptElement, now: int)
    ensures ParseGpts([e], now) == if ParseGpt(e, now).Some? then [ParseGpt(e, now).value] else []
  {
    CollectSingle(e, (e: GptElement) => ParseGpt(e, now));
  }

  /** Parsing works element by element: with `ParseGptsSingle` this fixes the
      result as one record per element with a GPT link, in document order. */
  lemma ParseGptsAppend(a: seq<GptElement>, b: seq<GptElement>, now: int)
    ensures ParseGpts(a + b, now) == ParseGpts(a, now) + ParseGpts(b, now)
  {
    CollectAppend(a, b, (e: GptElement) => ParseGpt(e, now));
  }

  lemma ParseConversationsSingle(e: ConversationElement, now: int)
    ensures ParseConversations([e], now) ==
      if ParseConversation(e, now).Some? then [ParseConversation(e, now).value] else []
  {
    CollectSingle(e, (e: ConversationElement) => ParseConversation(e, now));
  }

  lemma ParseConversationsAppend(a: seq<ConversationElement>, b: seq<ConversationElement>, now: int)
    ensures ParseConversations(a + b, now) == ParseConversations(a, now) + ParseConversations(b, now)
  {
    CollectAppend(a, b, (e: ConversationElement) => ParseConversation(e, now));
  }

  // ---------------------------------------------------------------------
  // Deduplication
  // ---------------------------------------------------------------------

  /** The scraper's dedup key: `${gpt.name}-${gpt.url}`. */
  function GptKey(g: Gpt): String {
    g.name + "-" + g.url
  }

  function ConversationKey(c: Conversation): String {
    c.id
  }

  /** `deduplicateGPTs`: the first GPT for each name-url key, in order. */
  method DeduplicateGpts(gpts: seq<Gpt>) returns (r: seq<Gpt>)
    ensures r == Dedup.KeepFirst(gpts, Dedup.SameKey(GptKey))
    ensures |r| <= |gpts| && forall k :: 0 <= k < |r| ==> r[k] in gpts
    ensures forall a, b :: 0 <= a < b < |r| ==> GptKey(r[a]) != GptKey(r[b])
    ensures forall i :: 0 <= i < |gpts| ==> exists k :: 0 <= k < |r| && GptKey(r[k]) == GptKey(gpts[i])
  {
    r := Dedup.DedupBySeenKeys(gpts, GptKey);
    GptKeysDistinct(gpts);
    GptKeysCovered(gpts, r);
  }

  lemma GptKeysDistinct(gpts: seq<Gpt>)
    ensures var r := Dedup.KeepFirst(gpts, Dedup.SameKey(GptKey));
      |r| <= |gpts| && (forall k :: 0 <= k < |r| ==> r[k] in gpts)
      && forall a, b :: 0 <= a < b < |r| ==> GptKey(r[a]) != GptKey(r[b])
  {
    var r := Dedup.KeepFirst(gpts, Dedup.SameKey(GptKey));
    Dedup.KeepFirstProperties(gpts, Dedup.SameKey(GptKey));
    forall a, b | 0 <= a < b < |r|
      ensures GptKey(r[a]) != GptKey(r[b])
    {
      assert !Dedup.SameKey(GptKey)(r[a], r[b]);
    }
  }

  lemma GptKeysCovered(gpts: seq<Gpt>, r: seq<Gpt>)
    requires r == Dedup.KeepFirst(gpts, Dedup.SameKey(GptKey))
    ensures forall i :: 0 <= i < |gpts| ==> exists k :: 0 <= k < |r| && GptKey(r[k]) == GptKey(gpts[i])
  {
    forall i | 0 <= i < |gpts|
      ensures exists k :: 0 <= k < |r| && GptKey(r[k]) == GptKey(gpts[i])
    {
      Dedup.KeepFirstCoversKeys(gpts, GptKey, i);
    }
  }

  /** `deduplicateConversations`: the first conversation for each id, in order. */
  method DeduplicateConversations(convs: seq<Conversation>) returns (r: seq<Conversation>)
    ensures r == Dedup.KeepFirst(convs, Dedup.SameKey(ConversationKey))
    ensures |r| <= |convs| && forall k :: 0 <= k < |r| ==> r[k] in convs
    ensures forall a, b :: 0 <= a < b < |r| ==> r[a].id != r[b].id
    ensures forall i :: 0 <= i < |convs| ==> exists k :: 0 <= k < |r| && r[k].id == convs[i].id
  {
    r := Dedup.DedupBySeenKeys(convs, ConversationKey);
    ConversationIdsDistinct(convs, r);
    forall i | 0 <= i < |convs|
      ensures exists k :: 0 <= k < |r| && r[k].id == convs[i].id
    {
      Dedup.KeepFirstCoversKeys(convs, ConversationKey, i);
    }
  }

  /** Deduplicating conversations twice is deduplicating once. */
  lemma DeduplicateConversationsIdempotent(convs: seq<Conversation>)
    ensures var once := Dedup.KeepFirst(convs, Dedup.SameKey(ConversationKey));
            Dedup.KeepFirst(once, Dedup.SameKey(ConversationKey)) == once
  {
    Dedup.KeepFirstIdempotent(convs, Dedup.SameKey(ConversationKey));
  }

  // ---------------------------------------------------------------------
  // Extraction and the message handler
  // ---------------------------------------------------------------------

  /** What the content script sees of the page. */
  datatype Page = Page(
    href: String,
    pathname: String,
    gptElements: seq<GptElement>,          // findGPTElements
    gptCards: seq<GptElement>,             // the "My GPTs" page cards
    conversationElements: seq<ConversationElement>
  )

  /** The "My GPTs" cards are scanned only on a /gpts or /g/ page. */
  predicate OnGptsPage(p: Page) {
    Contains(p.pathname, "/gpts") || Contains(p.pathname, GptMarker)
  }

  /** Every GPT `extractGPTs` parses before deduplicating: the sidebar's,
      then the page cards'. */
  function FoundGpts(p: Page, now: int): seq<Gpt> {
    ParseGpts(p.gptElements, now) + (if OnGptsPage(p) then ParseGpts(p.gptCards, now) else [])
  }

  /** `extractGPTs`: sidebar GPTs, then page cards, deduplicated.  Every
      returned GPT was parsed, and no parsed GPT's key is lost. */
  function ExtractGpts(p: Page, now: int): (r: seq<Gpt>)
    ensures forall a, b :: 0 <= a < b < |r| ==> GptKey(r[a]) != GptKey(r[b])
    ensures forall k :: 0 <= k < |r| ==> Contains(r[k].url, GptMarker)
    ensures forall k :: 0 <= k < |r| ==> r[k] in FoundGpts(p, now)
    ensures forall g :: g in FoundGpts(p, now) ==> exists k :: 0 <= k < |r| && GptKey(r[k]) == GptKey(g)
  {
    var found := FoundGpts(p, now);
    var r := Dedup.KeepFirst(found, Dedup.SameKey(GptKey));
    GptKeysDistinct(found);
    GptKeysCovered(found, r);
    r
  }

  /** `extractConversations`: parsed conversations, deduplicated by id. */
  function ExtractConversations(p: Page, now: int): (r: seq<Conversation>)
    ensures forall a, b :: 0 <= a < b < |r| ==> r[a].id != r[b].id
    ensures forall k :: 0 <= k < |r| ==> Contains(r[k].url, ConversationMarker)
    ensures forall k :: 0 <= k < |r| ==> r[k] in ParseConversations(p.conversationElements, now)
    ensures forall c :: c in ParseConversations(p.conversationElements, now) ==>
      exists k :: 0 <= k < |r| && r[k].id == c.id
  {
    var found := ParseConversations(p.conversationElements, now);
    var r := Dedup.KeepFirst(found, Dedup.SameKey(ConversationKey));
    ConversationIdsDistinct(found, r);
    ConversationIdsCovered(found, r);
    r
  }

  lemma ConversationIdsCovered(convs: seq<Conversation>, r: seq<Conversation>)
    requires r == Dedup.KeepFirst(convs, Dedup.SameKey(ConversationKey))
    ensures forall c :: c in convs ==> exists k :: 0 <= k < |r| && r[k].id == c.id
  {
    forall c | c in convs
      ensures exists k :: 0 <= k < |r| && r[k].id == c.id
    {
      var i :| 0 <= i < |convs| && convs[i] == c;
      Dedup.KeepFirstCoversKeys(convs, ConversationKey, i);
    }
  }

  lemma ConversationIdsDistinct(convs: seq<Conversation>, r: seq<Conversation>)
    requires r == Dedup.KeepFirst(convs, Dedup.SameKey(ConversationKey))
    ensures |r| <= |convs| && forall k :: 0 <= k < |r| ==> r[k] in convs
    ensures forall a, b :: 0 <= a < b < |r| ==> r[a].id != r[b].id
  {
    Dedup.KeepFirstProperties(convs, Dedup.SameKey(ConversationKey));
    forall a, b | 0 <= a < b < |r|
      ensures r[a].id != r[b].id
    {
      assert !Dedup.SameKey(ConversationKey)(r[a], r[b]);
      assert ConversationKey(r[a]) != ConversationKey(r[b]);
    }
  }

  /** The content script's replies. */
  datatype ContentResponse =
    | GptsSynced(gpts: seq<Gpt>)
    | ConversationsSynced(conversations: seq<Conversation>)
    | CurrentUrl(url: String)
    | Done
    | Failed(error: String)
  {
    /** The `success` field of the reply. */
    predicate Success() { !Failed? }
  }

  const UnknownAction: String := "Action non reconnue"

  /** The actions the content script answers. */
  const ContentActions: seq<String> := ["syncGPTs", "syncConversations", "getCurrentUrl", "renameConversation"]

  /** `handleMessage` of the content script.  Renaming only touches the page,
      which is not modelled. */
  function HandleContentMessage(action: String, p: Page, now: int): (r: ContentResponse)
    ensures r.Success() <==> action in ContentActions
    ensures !r.Success() ==> r == Failed(UnknownAction)
    ensures action == "syncGPTs" ==> r == GptsSynced(ExtractGpts(p, now))
    ensures action == "syncConversations" ==> r == ConversationsSynced(ExtractConversations(p, now))
    ensures action == "getCurrentUrl" ==> r == CurrentUrl(p.href)
  {
    if action == "syncGPTs" then GptsSynced(ExtractGpts(p, now))
    else if action == "syncConversations" then ConversationsSynced(ExtractConversations(p, now))
    else if action == "getCurrentUrl" then CurrentUrl(p.href)
    else if action == "renameConversation" then Done
    else Failed(UnknownAction)
  }
}
