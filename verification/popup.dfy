/**
  The popup's rules (popup.js): the small string helpers, the day buckets of
  relative dates, filtering and sorting of the two lists, the theme toggle,
  and the edits a click or a dialog makes to the lists.

  Dialog answers and the clock are parameters; `None` is a cancelled dialog.
 */
module Popup {
  import opened Wrappers
  import opened Text
  import opened Records
  import Dedup
  import Sorting
  import Background
  import Options

  // ---------------------------------------------------------------------
  // Utils.escapeHTML
  // ---------------------------------------------------------------------

  /** `s.replace(/c/g, rep)` for a one-character pattern. */
  function ReplaceAllChar(s: String, c: char, rep: String): (r: String)
    ensures forall d :: d in r && d !in rep ==> d in s && d != c
    ensures c !in s ==> r == s
    ensures |rep| >= 1 ==> |r| >= |s|
  {
    if |s| == 0 then []
    else (if s[0] == c then rep else [s[0]]) + ReplaceAllChar(s[1..], c, rep)
  }

  /** `Utils.escapeHTML`: the four replacements, `&` first. */
  function EscapeHtml(s: String): (r: String)
    ensures forall d :: d in r && d !in "&;amplgtquo" ==> d in s && d != '<' && d != '>' && d != '"'
    ensures |r| >= |s|
  {
    var a := ReplaceAllChar(s, '&', "&amp;");
    var b := ReplaceAllChar(a, '<', "&lt;");
    var c := ReplaceAllChar(b, '>', "&gt;");
    ReplaceAllChar(c, '"', "&quot;")
  }

  /** What one input character becomes. */
  function EscapeChar(c: char): (r: String)
    ensures c != '&' && c != '<' && c != '>' && c != '"' ==> r == [c]
    ensures |r| > 0 && (r[0] == '&' <==> c in "&<>\"")
    ensures '<' !in r && '>' !in r && '"' !in r
  {
    if c == '&' then "&amp;"
    else if c == '<' then "&lt;"
    else if c == '>' then "&gt;"
    else if c == '"' then "&quot;"
    else [c]
  }

  /** Escaping character by character. */
  function EscapeEach(s: String): String {
    if |s| == 0 then [] else EscapeChar(s[0]) + EscapeEach(s[1..])
  }

  lemma {:induction false} ReplaceAllCharAppend(a: String, b: String, c: char, rep: String)
    ensures ReplaceAllChar(a + b, c, rep) == ReplaceAllChar(a, c, rep) + ReplaceAllChar(b, c, rep)
    decreases |a|
  {
    if |a| == 0 {
      assert a + b == b;
    } else {
      assert (a + b)[0] == a[0] && (a + b)[1..] == a[1..] + b;
      ReplaceAllCharAppend(a[1..], b, c, rep);
      var h := if a[0] == c then rep else [a[0]];
      Sorting.ConcatAssoc(h, ReplaceAllChar(a[1..], c, rep), ReplaceAllChar(b, c, rep));
    }
  }

  lemma ReplaceAllCharOne(x: char, c: char, rep: String)
    ensures ReplaceAllChar([x], c, rep) == if x == c then rep else [x]
  {
    assert [x][1..] == [];
    assert ReplaceAllChar([x], c, rep) == (if x == c then rep else [x]) + [];
  }

  /** The chain of replacements on one character. */
  lemma EscapeHtmlOneChar(c: char)
    ensures EscapeHtml([c]) == EscapeChar(c)
  {
    ReplaceAllCharOne(c, '&', "&amp;");
    if c == '&' {
      EscapeTail("&amp;", '<');
    } else {
      ReplaceAllCharOne(c, '<', "&lt;");
      if c == '<' {
        EscapeTail("&lt;", '>');
      } else {
        ReplaceAllCharOne(c, '>', "&gt;");
        if c == '>' {
          EscapeTail("&gt;", '"');
        } else {
          ReplaceAllCharOne(c, '"', "&quot;");
        }
      }
    }
  }

  /** The replacements from the one for `first` on leave an entity alone. */
  lemma EscapeTail(e: String, first: char)
    requires e in {"&amp;", "&lt;", "&gt;"}
    requires first in "<>\""
    ensures first == '<' ==> ReplaceAllChar(ReplaceAllChar(ReplaceAllChar(e, '<', "&lt;"), '>', "&gt;"), '"', "&quot;") == e
    ensures first == '>' ==> ReplaceAllChar(ReplaceAllChar(e, '>', "&gt;"), '"', "&quot;") == e
    ensures first == '"' ==> ReplaceAllChar(e, '"', "&quot;") == e
  {
    assert '<' !in e && '>' !in e && '"' !in e;
  }

  /** The sequential replacements escape each character on its own: because
      `&` goes first, no entity written by a later step is escaped again. */
  lemma {:induction false} EscapeHtmlIsPerCharacter(s: String)
    ensures EscapeHtml(s) == EscapeEach(s)
    decreases |s|
  {
    if |s| > 0 {
      var h := [s[0]];
      var t := s[1..];
      assert s == h + t;
      EscapeHtmlIsPerCharacter(t);
      EscapeHtmlOneChar(s[0]);
      var a1 := ReplaceAllChar(h, '&', "&amp;");
      var a2 := ReplaceAllChar(t, '&', "&amp;");
      ReplaceAllCharAppend(h, t, '&', "&amp;");
      var b1 := ReplaceAllChar(a1, '<', "&lt;");
      var b2 := ReplaceAllChar(a2, '<', "&lt;");
      ReplaceAllCharAppend(a1, a2, '<', "&lt;");
      var c1 := ReplaceAllChar(b1, '>', "&gt;");
      var c2 := ReplaceAllChar(b2, '>', "&gt;");
      ReplaceAllCharAppend(b1, b2, '>', "&gt;");
      ReplaceAllCharAppend(c1, c2, '"', "&quot;");
    }
  }

  /** The escaped text holds no `<`, `>` or `"`, so it cannot open a tag or
      close an attribute value. */
  lemma EscapeHtmlHasNoMarkup(s: String)
    ensures '<' !in EscapeHtml(s) && '>' !in EscapeHtml(s) && '"' !in EscapeHtml(s)
  {
    EscapeHtmlIsPerCharacter(s);
    EscapeEachHasNoMarkup(s);
  }

  lemma {:induction false} EscapeEachHasNoMarkup(s: String)
    ensures '<' !in EscapeEach(s) && '>' !in EscapeEach(s) && '"' !in EscapeEach(s)
    decreases |s|
  {
    if |s| > 0 {
      EscapeEachHasNoMarkup(s[1..]);
    }
  }

  /** Reads the four entities back; every other character stands for itself. */
  function UnescapeHtml(t: String): String
    decreases |t|
  {
    if |t| == 0 then []
    else if StartsWith(t, "&amp;") then ['&'] + UnescapeHtml(t[5..])
    else if StartsWith(t, "&lt;") then ['<'] + UnescapeHtml(t[4..])
    else if StartsWith(t, "&gt;") then ['>'] + UnescapeHtml(t[4..])
    else if StartsWith(t, "&quot;") then ['"'] + UnescapeHtml(t[6..])
    else [t[0]] + UnescapeHtml(t[1..])
  }

  lemma UnescapeStep(c: char, rest: String)
    ensures UnescapeHtml(EscapeChar(c) + rest) == [c] + UnescapeHtml(rest)
  {
    var e := EscapeChar(c);
    var t := e + rest;
    assert t[..|e|] == e;
    assert t[|e|..] == rest;
    if c != '&' && c != '<' && c != '>' && c != '"' {
      assert t[0] == c && t[1..] == rest;
      assert !StartsWith(t, "&amp;") && !StartsWith(t, "&lt;") && !StartsWith(t, "&gt;") && !StartsWith(t, "&quot;") by {
        assert t[0] != '&';
      }
    } else if c == '<' {
      assert !StartsWith(t, "&amp;") by { assert t[1] == 'l'; }
    } else if c == '>' {
      assert !StartsWith(t, "&amp;") by { assert t[1] == 'g'; }
      assert !StartsWith(t, "&lt;") by { assert t[1] == 'g'; }
    } else if c == '"' {
      assert !StartsWith(t, "&amp;") by { assert t[1] == 'q'; }
      assert !StartsWith(t, "&lt;") by { assert t[1] == 'q'; }
      assert !StartsWith(t, "&gt;") by { assert t[1] == 'q'; }
    }
  }

  /** Escaping loses nothing: reading the entities back gives the input. */
  lemma {:induction false} EscapeHtmlRoundTrip(s: String)
    ensures UnescapeHtml(EscapeHtml(s)) == s
    decreases |s|
  {
    EscapeHtmlIsPerCharacter(s);
    EscapeEachRoundTrip(s);
  }

  lemma {:induction false} EscapeEachRoundTrip(s: String)
    ensures UnescapeHtml(EscapeEach(s)) == s
    decreases |s|
  {
    if |s| > 0 {
      EscapeEachRoundTrip(s[1..]);
      UnescapeStep(s[0], EscapeEach(s[1..]));
    }
  }

  /** Characters other than the four, the apostrophe included, pass through. */
  lemma EscapeHtmlKeepsPlainText(s: String)
    requires forall i :: 0 <= i < |s| ==> s[i] !in "&<>\""
    ensures EscapeHtml(s) == s
  {
    EscapeHtmlIsPerCharacter(s);
    EscapeEachPlain(s);
  }

  lemma {:induction false} EscapeEachPlain(s: String)
    requires forall i :: 0 <= i < |s| ==> s[i] !in "&<>\""
    ensures EscapeEach(s) == s
    decreases |s|
  {
    if |s| > 0 {
      EscapeEachPlain(s[1..]);
      assert s == [s[0]] + s[1..];
    }
  }

  // ---------------------------------------------------------------------
  // Utils.capitalize
  // ---------------------------------------------------------------------

  /** `str.charAt(0).toUpperCase() + str.slice(1)`. */
  function Capitalize(s: String): (r: String)
    ensures |s| == 0 <==> |r| == 0
    ensures |s| > 0 ==> |r| >= |s| && r[|r| - (|s| - 1)..] == s[1..]
    ensures |s| > 0 && IsAsciiLower(s[0]) ==> r == [(s[0] as int - 32) as char] + s[1..]
    ensures |s| > 0 && !HasCapitalForm(s[0]) ==> r == s
    ensures |s| > 0 && IsPairedSmall(s[0]) ==> r == [(s[0] as int - 1) as char] + s[1..]
  {
    if |s| == 0 then [] else UpperChar(s[0]) + s[1..]
  }

  /** Capitalizing twice is capitalizing once. */
  lemma CapitalizeIdempotent(s: String)
    ensures Capitalize(Capitalize(s)) == Capitalize(s)
  {
    if |s| > 0 {
      var u := UpperChar(s[0]);
      var r := Capitalize(s);
      assert r[0] == u[0];
      UpperCharOfUpper(s[0]);
      assert r == [u[0]] + r[1..];
    }
  }

  /** The first character of an upper-cased character is left as it is. */
  lemma UpperCharOfUpper(c: char)
    ensures UpperChar(UpperChar(c)[0]) == [UpperChar(c)[0]]
  {
    if IsAsciiLower(c) || ('\U{E0}' <= c <= '\U{FE}' && c != '\U{F7}') {
      assert UpperChar(c)[0] == (c as int - 32) as char;
    }
  }

  // ---------------------------------------------------------------------
  // Utils.formatDate: the relative day buckets
  // ---------------------------------------------------------------------

  datatype DateLabel = Today | Yesterday | DaysAgo(days: int) | WeeksAgo(weeks: int) | CalendarDate

  /** `Math.floor((now - date) / DayMs)`; Dafny's division by a positive
      divisor already rounds down. */
  function DiffDays(date: int, now: int): (d: int)
    ensures d * DayMs <= now - date < (d + 1) * DayMs
  {
    (now - date) / DayMs
  }

  /** The label `formatDate` picks for a timestamp. */
  function FormatDate(date: int, now: int): (r: DateLabel)
    ensures r == Today <==> 0 <= now - date < DayMs
    ensures r == Yesterday <==> DayMs <= now - date < 2 * DayMs
    ensures r.DaysAgo? ==> r.days < 7 && r.days * DayMs <= now - date < (r.days + 1) * DayMs
    ensures r.DaysAgo? <==> now - date < 0 || 2 * DayMs <= now - date < 7 * DayMs
    ensures r.WeeksAgo? <==> 7 * DayMs <= now - date < 30 * DayMs
    ensures r.WeeksAgo? ==> 1 <= r.weeks <= 4 && r.weeks * 7 * DayMs <= now - date
    ensures r.WeeksAgo? ==> r.weeks == DiffDays(date, now) / 7
    ensures r == CalendarDate <==> now - date >= 30 * DayMs
  {
    var d := DiffDays(date, now);
    if d == 0 then Today
    else if d == 1 then Yesterday
    else if d < 7 then DaysAgo(d)
    else if d < 30 then WeeksAgo(d / 7)
    else CalendarDate
  }

  /** The weeks shown are the whole weeks elapsed. */
  lemma WeeksAgoIsWholeWeeks(date: int, now: int)
    ensures FormatDate(date, now).WeeksAgo? ==>
      var w := FormatDate(date, now).weeks;
      w * 7 * DayMs <= now - date < (w + 1) * 7 * DayMs
  {
    if FormatDate(date, now).WeeksAgo? {
      var d := DiffDays(date, now);
      var w := FormatDate(date, now).weeks;
      assert w * 7 <= d < (w + 1) * 7;
      assert (d + 1) * DayMs <= (w + 1) * 7 * DayMs;
    }
  }

  /** How far back a label reaches. */
  function Rank(l: DateLabel): int {
    match l
    case Today => 0
    case Yesterday => 1
    case DaysAgo(n) => n
    case WeeksAgo(w) => 7 * w
    case CalendarDate => 30
  }

  /** As time passes a past date's label never moves back toward "today". */
  lemma FormatDateMonotone(date: int, now: int, later: int)
    requires date <= now <= later
    ensures Rank(FormatDate(date, now)) <= Rank(FormatDate(date, later))
  {
    var d1 := DiffDays(date, now);
    var d2 := DiffDays(date, later);
    assert d1 * DayMs < (d2 + 1) * DayMs;
    assert d1 <= d2;
    if d1 >= 7 && d1 < 30 && d2 < 30 {
      assert d1 / 7 <= d2 / 7;
    }
  }

  /** A date in the future gets a negative day count. */
  lemma FutureDateHasNegativeDays(date: int, now: int)
    requires date > now
    ensures FormatDate(date, now).DaysAgo? && FormatDate(date, now).days < 0
  {
  }

  // ---------------------------------------------------------------------
  // ThemeManager.toggleTheme
  // ---------------------------------------------------------------------

  /** `theme === 'light' ? 'dark' : 'light'`. */
  function ToggleTheme(theme: String): (r: String)
    ensures r == "light" || r == "dark"
    ensures r == "dark" <==> theme == "light"
  {
    if theme == "light" then "dark" else "light"
  }

  /** On the two themes, toggling is an involution without fixed points. */
  lemma ToggleThemeInvolution(theme: String)
    requires theme == "light" || theme == "dark"
    ensures ToggleTheme(ToggleTheme(theme)) == theme
    ensures ToggleTheme(theme) != theme
  {
  }

  // ---------------------------------------------------------------------
  // filterAndSortGPTs
  // ---------------------------------------------------------------------

  const WeekMs: int := 7 * DayMs

  /** The search box: the lowercased query occurs in the lowercased name or
      description. */
  predicate GptMatchesSearch(g: Gpt, query: String) {
    Contains(Lower(g.name), Lower(query)) || Contains(Lower(g.description), Lower(query))
  }

  /** The search ignores case: a query matches exactly when its lowered form does. */
  lemma GptSearchIgnoresCase(g: Gpt, query: String)
    ensures GptMatchesSearch(g, query) <==> GptMatchesSearch(g, Lower(query))
  {
    LowerIdempotent(query);
  }

  /** The category drop-down: "all", "favorites", "recent" (used in the last
      seven days) or a category id. */
  predicate GptMatchesCategory(g: Gpt, filter: String, now: int) {
    || filter == "all"
    || (filter == "favorites" && g.favorite)
    || (filter == "recent" && g.lastUsed.Some? && g.lastUsed.value >= now - WeekMs)
    || g.category == Some(filter)
  }

  function GptFilter(query: String, filter: String, now: int): Gpt -> bool {
    g => GptMatchesSearch(g, query) && GptMatchesCategory(g, filter, now)
  }

  /** `new Date(gpt.lastUsed)` as a number, for the "recent" order. */
  function LastUsedKey(g: Gpt): int {
    g.lastUsed.GetOr(0)
  }

  /** The order of a sort choice; "name" and unknown choices keep the filtered
      order (see the notes on `localeCompare`). */
  function SortGpts(xs: seq<Gpt>, sort: String): (r: seq<Gpt>)
    ensures multiset(r) == multiset(xs)
    ensures sort == "usage" ==> Sorting.SortedDesc(r, UsageOf)
    ensures sort == "recent" ==> Sorting.SortedDesc(r, LastUsedKey)
    ensures sort != "usage" && sort != "recent" ==> r == xs
  {
    if sort == "usage" then Sorting.SortByKeyDesc(xs, UsageOf)
    else if sort == "recent" then Sorting.SortByKeyDesc(xs, LastUsedKey)
    else xs
  }

  /** `filterAndSortGPTs`. */
  function FilterAndSortGpts(gpts: seq<Gpt>, query: String, filter: String, sort: String, now: int): (r: seq<Gpt>)
    ensures forall g :: g in r ==> GptMatchesSearch(g, query) && GptMatchesCategory(g, filter, now)
    ensures forall g :: g in gpts && GptMatchesSearch(g, query) && GptMatchesCategory(g, filter, now) ==> g in r
    ensures multiset(r) == multiset(Filter(gpts, GptFilter(query, filter, now)))
    ensures sort == "usage" ==> Sorting.SortedDesc(r, UsageOf)
    ensures sort == "recent" ==> Sorting.SortedDesc(r, LastUsedKey)
    ensures sort != "usage" && sort != "recent" ==> r == Filter(gpts, GptFilter(query, filter, now))
  {
    var p := GptFilter(query, filter, now);
    var filtered := Filter(gpts, p);
    var r := SortGpts(filtered, sort);
    assert forall g :: g in r ==> g in multiset(filtered);
    forall g | g in gpts && p(g)
      ensures g in r
    {
      FilterKeeps(gpts, p, g);
      assert g in multiset(r);
    }
    r
  }

  /** An empty search with the "all" filter lists every GPT. */
  lemma EmptySearchListsEverything(gpts: seq<Gpt>, sort: String, now: int)
    ensures multiset(FilterAndSortGpts(gpts, [], "all", sort, now)) == multiset(gpts)
  {
    var p := GptFilter([], "all", now);
    forall k | 0 <= k < |gpts|
      ensures p(gpts[k])
    {
      assert OccursAt(Lower(gpts[k].name), Lower([]), 0);
    }
    FilterAll(gpts, p);
  }

  /** In the "usage" order, GPTs with equal counts keep their stored order. */
  lemma UsageOrderIsStable(gpts: seq<Gpt>, query: String, filter: String, now: int, v: int)
    ensures Sorting.WithKey(FilterAndSortGpts(gpts, query, filter, "usage", now), UsageOf, v)
      == Sorting.WithKey(Filter(gpts, GptFilter(query, filter, now)), UsageOf, v)
  {
    Sorting.SortStable(Filter(gpts, GptFilter(query, filter, now)), UsageOf, v);
  }

  // ---------------------------------------------------------------------
  // filterConversations
  // ---------------------------------------------------------------------

  const MonthMs: int := 30 * DayMs

  /** The calendar day of a timestamp in the browser's time zone, given as
      its offset from UTC. */
  function LocalDay(t: int, zoneOffsetMs: int): int {
    (t + zoneOffsetMs) / DayMs
  }

  predicate ConversationMatchesSearch(c: Conversation, query: String) {
    Contains(Lower(c.title), Lower(query)) || Contains(Lower(c.lastMessage), Lower(query))
  }

  /** The conversation search ignores case as well. */
  lemma ConversationSearchIgnoresCase(c: Conversation, query: String)
    ensures ConversationMatchesSearch(c, query) <==> ConversationMatchesSearch(c, Lower(query))
  {
    LowerIdempotent(query);
  }

  /** The period drop-down: "today", "week", "month", "starred", anything else
      keeps every conversation. */
  predicate ConversationMatchesPeriod(c: Conversation, period: String, now: int, zoneOffsetMs: int) {
    if period == "today" then LocalDay(c.updatedAt, zoneOffsetMs) == LocalDay(now, zoneOffsetMs)
    else if period == "week" then c.updatedAt >= now - WeekMs
    else if period == "month" then c.updatedAt >= now - MonthMs
    else if period == "starred" then c.starred
    else true
  }

  predicate ConversationMatchesCategory(c: Conversation, category: String) {
    category == "all" || c.category == Some(category)
  }

  function ConversationFilter(query: String, period: String, category: String, now: int, zoneOffsetMs: int)
    : Conversation -> bool
  {
    c => ConversationMatchesSearch(c, query) && ConversationMatchesPeriod(c, period, now, zoneOffsetMs)
      && ConversationMatchesCategory(c, category)
  }

  function UpdatedAtKey(c: Conversation): int {
    c.updatedAt
  }

  /** `filterConversations`: the matching conversations, most recently
      updated first. */
  function FilterConversations(convs: seq<Conversation>, query: String, period: String, category: String,
                               now: int, zoneOffsetMs: int): (r: seq<Conversation>)
    ensures Sorting.SortedDesc(r, UpdatedAtKey)
    ensures multiset(r) == multiset(Filter(convs, ConversationFilter(query, period, category, now, zoneOffsetMs)))
    ensures forall c :: c in r <==> c in convs && ConversationFilter(query, period, category, now, zoneOffsetMs)(c)
  {
    var p := ConversationFilter(query, period, category, now, zoneOffsetMs);
    var filtered := Filter(convs, p);
    var r := Sorting.SortByKeyDesc(filtered, UpdatedAtKey);
    assert forall c :: c in r ==> c in multiset(filtered);
    forall c | c in convs && p(c)
      ensures c in r
    {
      FilterKeeps(convs, p, c);
      assert c in multiset(r);
    }
    r
  }

  /** The "starred" view holds only starred conversations, and a category
      view only that category. */
  lemma StarredViewIsStarred(convs: seq<Conversation>, query: String, category: String, now: int, zoneOffsetMs: int)
    ensures forall c :: c in FilterConversations(convs, query, "starred", category, now, zoneOffsetMs) ==> c.starred
    ensures category != "all" ==>
      forall c :: c in FilterConversations(convs, query, "starred", category, now, zoneOffsetMs) ==> c.category == Some(category)
  {
  }

  /** Every conversation updated today (in local time) is also in the week
      and month views, even with a time-zone offset of up to one day. */
  lemma TodayWithinWeek(c: Conversation, now: int, zoneOffsetMs: int)
    requires c.updatedAt <= now
    requires ConversationMatchesPeriod(c, "today", now, zoneOffsetMs)
    ensures ConversationMatchesPeriod(c, "week", now, zoneOffsetMs)
    ensures ConversationMatchesPeriod(c, "month", now, zoneOffsetMs)
  {
    var d := LocalDay(now, zoneOffsetMs);
    assert d * DayMs <= now + zoneOffsetMs < (d + 1) * DayMs;
    assert d * DayMs <= c.updatedAt + zoneOffsetMs;
  }

  // ---------------------------------------------------------------------
  // Clicks on GPT cards
  // ---------------------------------------------------------------------

  function HasId(id: String): Gpt -> bool {
    (g: Gpt) => g.id == id
  }

  /** `AppState.gpts.find(g => g.id === id)`, as a position (-1 when absent). */
  function GptIndex(gpts: seq<Gpt>, id: String): (i: int)
    ensures -1 <= i < |gpts|
    ensures i == -1 <==> forall j :: 0 <= j < |gpts| ==> gpts[j].id != id
    ensures i >= 0 ==> gpts[i].id == id && forall j :: 0 <= j < i ==> gpts[j].id != id
  {
    Dedup.FindIndex(gpts, HasId(id))
  }

  /** The "favorite" button: flips the flag of the first GPT with the id. */
  function ToggleFavorite(gpts: seq<Gpt>, id: String): (r: seq<Gpt>)
    ensures |r| == |gpts|
    ensures GptIndex(gpts, id) == -1 ==> r == gpts
    ensures GptIndex(gpts, id) >= 0 ==> var i := GptIndex(gpts, id);
      r == gpts[i := gpts[i].(favorite := !gpts[i].favorite)]
  {
    var i := GptIndex(gpts, id);
    if i < 0 then gpts else gpts[i := gpts[i].(favorite := !gpts[i].favorite)]
  }

  /** Clicking twice restores the list. */
  lemma ToggleFavoriteInvolution(gpts: seq<Gpt>, id: String)
    ensures ToggleFavorite(ToggleFavorite(gpts, id), id) == gpts
  {
    var i := GptIndex(gpts, id);
    if i >= 0 {
      var once := ToggleFavorite(gpts, id);
      assert forall j :: 0 <= j < |once| ==> once[j].id == gpts[j].id;
      assert GptIndex(once, id) == i;
    }
  }

  /** The "delete" button, after confirmation: every GPT with the id goes. */
  function DeleteGpt(gpts: seq<Gpt>, id: String, confirmed: bool): (r: seq<Gpt>)
    ensures !confirmed || GptIndex(gpts, id) == -1 ==> r == gpts
    ensures confirmed ==> forall g :: g in r <==> g in gpts && g.id != id
    ensures confirmed ==> |r| + CountWhere(gpts, HasId(id)) == |gpts|
    ensures confirmed ==> r == Filter(gpts, Not(HasId(id)))
  {
    if !confirmed then gpts
    else
      var p := Not(HasId(id));
      CountPartition(gpts, HasId(id));
      forall g | g in gpts && g.id != id
        ensures g in Filter(gpts, p)
      {
        FilterKeeps(gpts, p, g);
      }
      if GptIndex(gpts, id) == -1 then FilterAll(gpts, p); Filter(gpts, p)
      else Filter(gpts, p)
  }

  /** A click on the card of a GPT with a url: its usage count grows by one
      and its last use becomes `now`. */
  function OpenGpt(gpts: seq<Gpt>, id: String, now: int): (r: seq<Gpt>)
    ensures |r| == |gpts|
    ensures GptIndex(gpts, id) == -1 || gpts[GptIndex(gpts, id)].url == [] ==> r == gpts
    ensures GptIndex(gpts, id) >= 0 && gpts[GptIndex(gpts, id)].url != [] ==> var i := GptIndex(gpts, id);
      && UsageOf(r[i]) == UsageOf(gpts[i]) + 1
      && r[i].lastUsed == Some(now)
      && r[i].(usageCount := gpts[i].usageCount, lastUsed := gpts[i].lastUsed) == gpts[i]
      && forall j :: 0 <= j < |gpts| && j != i ==> r[j] == gpts[j]
  {
    var i := GptIndex(gpts, id);
    if i < 0 || gpts[i].url == [] then gpts
    else gpts[i := gpts[i].(usageCount := Some(UsageOf(gpts[i]) + 1), lastUsed := Some(now))]
  }

  /** Opening a GPT adds exactly one to the total usage the service worker
      reports. */
  lemma OpenGptAddsOneUse(gpts: seq<Gpt>, id: String, now: int)
    requires GptIndex(gpts, id) >= 0 && gpts[GptIndex(gpts, id)].url != []
    ensures Background.TotalUsage(OpenGpt(gpts, id, now)) == Background.TotalUsage(gpts) + 1
  {
    var i := GptIndex(gpts, id);
    TotalUsageUpdate(gpts, i, OpenGpt(gpts, id, now)[i]);
    assert OpenGpt(gpts, id, now) == gpts[i := OpenGpt(gpts, id, now)[i]];
  }

  lemma {:induction false} TotalUsageUpdate(xs: seq<Gpt>, i: int, x: Gpt)
    requires 0 <= i < |xs|
    ensures Background.TotalUsage(xs[i := x]) == Background.TotalUsage(xs) - UsageOf(xs[i]) + UsageOf(x)
    decreases |xs|
  {
    var n := |xs| - 1;
    var ys := xs[i := x];
    if i < n {
      assert ys[..n] == xs[..n][i := x];
      TotalUsageUpdate(xs[..n], i, x);
    } else {
      assert ys[..n] == xs[..n];
    }
  }

  /** `editGPT`: a non-blank name different from the current one replaces it,
      trimmed; a cancelled or unchanged dialog changes nothing. */
  function EditGpt(gpts: seq<Gpt>, id: String, newName: Option<String>): (r: seq<Gpt>)
    ensures |r| == |gpts|
    ensures GptIndex(gpts, id) == -1 || newName.None? ==> r == gpts
    ensures GptIndex(gpts, id) >= 0 && newName.Some? ==> var i := GptIndex(gpts, id);
      && (forall j :: 0 <= j < |gpts| && j != i ==> r[j] == gpts[j])
      && r[i].(name := gpts[i].name) == gpts[i]
      && (r[i].name != gpts[i].name ==> r[i].name == Trim(newName.value) && !IsBlank(newName.value))
      && (!IsBlank(newName.value) && newName.value != gpts[i].name ==> r[i].name == Trim(newName.value))
  {
    var i := GptIndex(gpts, id);
    if i < 0 then gpts
    else match newName
      case None => gpts
      case Some(n) =>
        if !IsBlank(n) && n != gpts[i].name then gpts[i := gpts[i].(name := Trim(n))] else gpts
  }

  /** Answering the dialog the same way twice changes nothing the second time. */
  lemma EditGptIdempotent(gpts: seq<Gpt>, id: String, newName: Option<String>)
    ensures EditGpt(EditGpt(gpts, id, newName), id, newName) == EditGpt(gpts, id, newName)
  {
    var i := GptIndex(gpts, id);
    if i >= 0 && newName.Some? {
      var once := EditGpt(gpts, id, newName);
      assert forall j :: 0 <= j < |once| ==> once[j].id == gpts[j].id;
      assert GptIndex(once, id) == i;
    }
  }

  // ---------------------------------------------------------------------
  // Conversation edits
  // ---------------------------------------------------------------------

  function ConversationIndex(convs: seq<Conversation>, id: String): (i: int)
    ensures -1 <= i < |convs|
    ensures i == -1 <==> forall j :: 0 <= j < |convs| ==> convs[j].id != id
    ensures i >= 0 ==> convs[i].id == id && forall j :: 0 <= j < i ==> convs[j].id != id
  {
    Dedup.FindIndex(convs, (c: Conversation) => c.id == id)
  }

  /** The "star" button: flips the flag of the first conversation with the id. */
  function ToggleStar(convs: seq<Conversation>, id: String): (r: seq<Conversation>)
    ensures |r| == |convs|
    ensures ConversationIndex(convs, id) == -1 ==> r == convs
    ensures ConversationIndex(convs, id) >= 0 ==> var i := ConversationIndex(convs, id);
      r == convs[i := convs[i].(starred := !convs[i].starred)]
  {
    var i := ConversationIndex(convs, id);
    if i < 0 then convs else convs[i := convs[i].(starred := !convs[i].starred)]
  }

  lemma ToggleStarInvolution(convs: seq<Conversation>, id: String)
    ensures ToggleStar(ToggleStar(convs, id), id) == convs
  {
    var i := ConversationIndex(convs, id);
    if i >= 0 {
      var once := ToggleStar(convs, id);
      assert forall j :: 0 <= j < |once| ==> once[j].id == convs[j].id;
      assert ConversationIndex(once, id) == i;
    }
  }

  // ---------------------------------------------------------------------
  // Delegated click listeners
  // ---------------------------------------------------------------------

  /** A rendered list and the number of `click` listeners on its container.
      A render replaces the container's children; the container, and every
      listener already added to it, stays. */
  datatype Panel<T> = Panel(items: seq<T>, listeners: nat)

  /** A render as written: `renderGPTs` and `renderConversations` end with
      their attach function, which adds one more listener, unless the filtered
      list is empty and the render returns early. */
  function RenderAsWritten<T>(p: Panel<T>, listed: bool): Panel<T> {
    if listed then p.(listeners := p.listeners + 1) else p
  }

  /** A render as evidently intended: the container keeps a single listener. */
  function Render<T>(p: Panel<T>): Panel<T> {
    p.(listeners := 1)
  }

  function FlipFavorite(id: String): seq<Gpt> -> seq<Gpt> {
    (gs: seq<Gpt>) => ToggleFavorite(gs, id)
  }

  function FlipStar(id: String): seq<Conversation> -> seq<Conversation> {
    (cs: seq<Conversation>) => ToggleStar(cs, id)
  }

  function OpenOnce(id: String, now: int): seq<Gpt> -> seq<Gpt> {
    (gs: seq<Gpt>) => OpenGpt(gs, id, now)
  }

  /** The favourite button as written. Every listener finds the GPT and flips
      its flag before any of them resumes from the storage write; then each
      re-renders, and `listed` says whether the re-rendered list is non-empty.
      When no GPT has the id every listener returns at once. */
  function FavoriteClickAsWritten(p: Panel<Gpt>, id: String, listed: bool): Panel<Gpt> {
    if GptIndex(p.items, id) < 0 then p
    else Panel(Repeat(FlipFavorite(id), p.items, p.listeners),
               if listed then p.listeners + p.listeners else p.listeners)
  }

  /** The favourite button with the re-render keeping one listener. */
  function FavoriteClick(p: Panel<Gpt>, id: String): Panel<Gpt> {
    var q := Panel(Repeat(FlipFavorite(id), p.items, p.listeners), p.listeners);
    if GptIndex(p.items, id) < 0 || p.listeners == 0 then p else Render(q)
  }

  /** The star button as written, like the favourite button. */
  function StarClickAsWritten(p: Panel<Conversation>, id: String, listed: bool): Panel<Conversation> {
    if ConversationIndex(p.items, id) < 0 then p
    else Panel(Repeat(FlipStar(id), p.items, p.listeners),
               if listed then p.listeners + p.listeners else p.listeners)
  }

  /** The star button with the re-render keeping one listener. */
  function StarClick(p: Panel<Conversation>, id: String): Panel<Conversation> {
    var q := Panel(Repeat(FlipStar(id), p.items, p.listeners), p.listeners);
    if ConversationIndex(p.items, id) < 0 || p.listeners == 0 then p else Render(q)
  }

  /** A click on a GPT card: every listener counts one use; nothing re-renders.
      The number of listeners is all that differs between as written and
      intended. */
  function OpenClick(p: Panel<Gpt>, id: String, now: int): Panel<Gpt> {
    if GptIndex(p.items, id) < 0 then p
    else p.(items := Repeat(OpenOnce(id, now), p.items, p.listeners))
  }

  /** As written, a favourite click flips the flag once per listener: an even
      number of listeners leaves it as it was; and each click doubles the
      listeners when the list is re-rendered. */
  lemma FavoriteClickAsWrittenParity(p: Panel<Gpt>, id: String, listed: bool)
    requires GptIndex(p.items, id) >= 0
    ensures FavoriteClickAsWritten(p, id, listed).items ==
      if p.listeners % 2 == 0 then p.items else ToggleFavorite(p.items, id)
    ensures listed ==> FavoriteClickAsWritten(p, id, listed).listeners == 2 * p.listeners
  {
    ToggleFavoriteInvolution(p.items, id);
    RepeatInvolution(FlipFavorite(id), p.items, p.listeners);
  }

  /** The star button as written behaves the same way. */
  lemma StarClickAsWrittenParity(p: Panel<Conversation>, id: String, listed: bool)
    requires ConversationIndex(p.items, id) >= 0
    ensures StarClickAsWritten(p, id, listed).items ==
      if p.listeners % 2 == 0 then p.items else ToggleStar(p.items, id)
    ensures listed ==> StarClickAsWritten(p, id, listed).listeners == 2 * p.listeners
  {
    ToggleStarInvolution(p.items, id);
    RepeatInvolution(FlipStar(id), p.items, p.listeners);
  }

  /** The discrepancy: after the first render and one favourite click, a
      second favourite click changes nothing, where it should undo the first. */
  lemma SecondFavoriteClickIsLost(gpts: seq<Gpt>, id: String)
    requires GptIndex(gpts, id) >= 0
    ensures var first := FavoriteClickAsWritten(RenderAsWritten(Panel(gpts, 0), true), id, true);
      && first.items == ToggleFavorite(gpts, id)
      && first.items != gpts
      && FavoriteClickAsWritten(first, id, true).items == first.items
  {
    var p := RenderAsWritten(Panel(gpts, 0), true);
    FavoriteClickAsWrittenParity(p, id, true);
    var first := FavoriteClickAsWritten(p, id, true);
    var i := GptIndex(gpts, id);
    assert first.items[i].favorite != gpts[i].favorite;
    assert forall j :: 0 <= j < |gpts| ==> first.items[j].id == gpts[j].id;
    assert GptIndex(first.items, id) == i;
    FavoriteClickAsWrittenParity(first, id, true);
  }

  /** Lists with the same ids position every id alike. */
  lemma SameIdsSameGptIndex(a: seq<Gpt>, b: seq<Gpt>, id: String)
    requires |a| == |b| && forall k :: 0 <= k < |a| ==> a[k].id == b[k].id
    ensures GptIndex(a, id) == GptIndex(b, id)
  {
  }

  /** The GPT with the id is at position `i` and has a url. */
  function OnTarget(id: String, i: int): seq<Gpt> -> bool {
    (gs: seq<Gpt>) => 0 <= i < |gs| && GptIndex(gs, id) == i && gs[i].url != []
  }

  function TotalUsageOf(): seq<Gpt> -> int {
    Background.TotalUsage
  }

  /** One card click keeps the target in place and adds one use. */
  lemma OpenOnceStep(id: String, now: int, i: int)
    ensures forall gs :: OnTarget(id, i)(gs) ==>
      OnTarget(id, i)(OpenOnce(id, now)(gs))
      && TotalUsageOf()(OpenOnce(id, now)(gs)) == TotalUsageOf()(gs) + 1
  {
    forall gs | OnTarget(id, i)(gs)
      ensures OnTarget(id, i)(OpenOnce(id, now)(gs))
      ensures TotalUsageOf()(OpenOnce(id, now)(gs)) == TotalUsageOf()(gs) + 1
    {
      OpenGptKeepsTarget(gs, id, now);
      OpenGptAddsOneUse(gs, id, now);
    }
  }

  lemma OpenRepeatCounts(gpts: seq<Gpt>, id: String, now: int, i: int, k: nat)
    requires OnTarget(id, i)(gpts)
    ensures TotalUsageOf()(Repeat(OpenOnce(id, now), gpts, k)) == TotalUsageOf()(gpts) + k
  {
    OpenOnceStep(id, now, i);
    RepeatCounts(OpenOnce(id, now), OnTarget(id, i), TotalUsageOf(), gpts, k);
  }

  /** Repeated card clicks add one use each. */
  lemma OpenGptRepeated(gpts: seq<Gpt>, id: String, now: int, k: nat)
    requires GptIndex(gpts, id) >= 0 && gpts[GptIndex(gpts, id)].url != []
    ensures Background.TotalUsage(Repeat(OpenOnce(id, now), gpts, k)) == Background.TotalUsage(gpts) + k
  {
    var i := GptIndex(gpts, id);
    assert OnTarget(id, i)(gpts);
    OpenRepeatCounts(gpts, id, now, i, k);
  }

  /** One card click keeps the GPT's position and url. */
  lemma OpenGptKeepsTarget(gpts: seq<Gpt>, id: String, now: int)
    requires GptIndex(gpts, id) >= 0 && gpts[GptIndex(gpts, id)].url != []
    ensures GptIndex(OpenGpt(gpts, id, now), id) == GptIndex(gpts, id)
    ensures OpenGpt(gpts, id, now)[GptIndex(gpts, id)].url == gpts[GptIndex(gpts, id)].url
  {
    var r := OpenGpt(gpts, id, now);
    assert forall j :: 0 <= j < |r| ==> r[j].id == gpts[j].id;
  }

  /** A card click adds one use per listener. */
  lemma OpenClickAddsPerListener(p: Panel<Gpt>, id: String, now: int)
    requires GptIndex(p.items, id) >= 0 && p.items[GptIndex(p.items, id)].url != []
    ensures Background.TotalUsage(OpenClick(p, id, now).items) == Background.TotalUsage(p.items) + p.listeners
  {
    OpenGptRepeated(p.items, id, now, p.listeners);
  }

  /** A favourite toggle keeps the GPT's position and url and the total use. */
  lemma ToggleFavoriteKeepsTarget(gpts: seq<Gpt>, id: String)
    requires GptIndex(gpts, id) >= 0
    ensures GptIndex(ToggleFavorite(gpts, id), id) == GptIndex(gpts, id)
    ensures ToggleFavorite(gpts, id)[GptIndex(gpts, id)].url == gpts[GptIndex(gpts, id)].url
    ensures Background.TotalUsage(ToggleFavorite(gpts, id)) == Background.TotalUsage(gpts)
  {
    var r := ToggleFavorite(gpts, id);
    var i := GptIndex(gpts, id);
    assert r == gpts[i := r[i]];
    TotalUsageUpdate(gpts, i, r[i]);
    assert forall j :: 0 <= j < |r| ==> r[j].id == gpts[j].id;
  }

  /** The discrepancy: after the first render and one favourite click, a click
      on the card counts two uses (and opens two tabs). */
  lemma OpenAfterFavoriteCountsTwice(gpts: seq<Gpt>, id: String, now: int)
    requires GptIndex(gpts, id) >= 0 && gpts[GptIndex(gpts, id)].url != []
    ensures var first := FavoriteClickAsWritten(RenderAsWritten(Panel(gpts, 0), true), id, true);
      Background.TotalUsage(OpenClick(first, id, now).items) == Background.TotalUsage(gpts) + 2
  {
    var p := RenderAsWritten(Panel(gpts, 0), true);
    FavoriteClickAsWrittenParity(p, id, true);
    ToggleFavoriteKeepsTarget(gpts, id);
    OpenClickAddsPerListener(FavoriteClickAsWritten(p, id, true), id, now);
  }

  /** As intended, with one listener a favourite click flips the flag once and
      keeps one listener. */
  lemma FavoriteClickFlipsOnce(p: Panel<Gpt>, id: String)
    requires p.listeners == 1
    ensures FavoriteClick(p, id) == Panel(ToggleFavorite(p.items, id), 1)
  {
  }

  /** As intended, a second favourite click undoes the first, however many
      renders came before. */
  lemma FavoriteClickTwiceRestores(gpts: seq<Gpt>, renders: nat, id: String)
    ensures var p := Render(Panel(gpts, renders));
      FavoriteClick(FavoriteClick(p, id), id) == p
  {
    var p := Render(Panel(gpts, renders));
    FavoriteClickFlipsOnce(p, id);
    FavoriteClickFlipsOnce(FavoriteClick(p, id), id);
    ToggleFavoriteInvolution(gpts, id);
  }

  /** As intended, a star click flips the star once and keeps one listener. */
  lemma StarClickFlipsOnce(p: Panel<Conversation>, id: String)
    requires p.listeners == 1
    ensures StarClick(p, id) == Panel(ToggleStar(p.items, id), 1)
  {
  }

  /** As intended, a card click counts exactly one use, however many renders
      came before. */
  lemma OpenClickAddsOneUse(gpts: seq<Gpt>, renders: nat, id: String, now: int)
    requires GptIndex(gpts, id) >= 0 && gpts[GptIndex(gpts, id)].url != []
    ensures Background.TotalUsage(OpenClick(Render(Panel(gpts, renders)), id, now).items) ==
      Background.TotalUsage(gpts) + 1
  {
    OpenClickAddsPerListener(Render(Panel(gpts, renders)), id, now);
  }

  /** `renameConversation`: like `editGPT`, and the update time becomes `now`. */
  function RenameConversation(convs: seq<Conversation>, id: String, newTitle: Option<String>, now: int)
    : (r: seq<Conversation>)
    ensures |r| == |convs|
    ensures ConversationIndex(convs, id) == -1 || newTitle.None? ==> r == convs
    ensures ConversationIndex(convs, id) >= 0 && newTitle.Some? ==> var i := ConversationIndex(convs, id);
      && (forall j :: 0 <= j < |convs| && j != i ==> r[j] == convs[j])
      && (!IsBlank(newTitle.value) && newTitle.value != convs[i].title ==>
            r[i] == convs[i].(title := Trim(newTitle.value), updatedAt := now))
      && (IsBlank(newTitle.value) || newTitle.value == convs[i].title ==> r[i] == convs[i])
  {
    var i := ConversationIndex(convs, id);
    if i < 0 then convs
    else match newTitle
      case None => convs
      case Some(t) =>
        if !IsBlank(t) && t != convs[i].title then convs[i := convs[i].(title := Trim(t), updatedAt := now)]
        else convs
  }

  /** `editConversationCategory`: only a (trimmed) id from the list is accepted. */
  function EditConversationCategory(convs: seq<Conversation>, categories: seq<String>, id: String, selected: Option<String>)
    : (r: seq<Conversation>)
    ensures (selected.None? || IsBlank(selected.value) || Trim(selected.value) !in categories
             || ConversationIndex(convs, id) == -1) ==> r == convs
    ensures (selected.Some? && !IsBlank(selected.value) && Trim(selected.value) in categories
             && ConversationIndex(convs, id) >= 0) ==>
      r == convs[ConversationIndex(convs, id) := convs[ConversationIndex(convs, id)].(category := Some(Trim(selected.value)))]
  {
    var i := ConversationIndex(convs, id);
    if i < 0 then convs
    else match selected
      case None => convs
      case Some(s) =>
        var t := Trim(s);
        if |t| > 0 && t in categories then convs[i := convs[i].(category := Some(t))] else convs
  }

  /** Lists with the same ids in the same places find an id at the same
      place. */
  lemma SameIdsSameIndex(a: seq<Conversation>, b: seq<Conversation>, id: String)
    requires |a| == |b| && forall k :: 0 <= k < |a| ==> a[k].id == b[k].id
    ensures ConversationIndex(a, id) == ConversationIndex(b, id)
  {
  }

  /** Renaming twice to the same title at the same time is renaming once. */
  lemma RenameConversationIdempotent(convs: seq<Conversation>, id: String, newTitle: Option<String>, now: int)
    ensures var once := RenameConversation(convs, id, newTitle, now);
      RenameConversation(once, id, newTitle, now) == once
  {
    var once := RenameConversation(convs, id, newTitle, now);
    SameIdsSameIndex(convs, once, id);
  }

  /** Editing a conversation's category never leaves it outside the list
      unless it was there already; every other conversation is unchanged. */
  lemma EditConversationCategoryKeepsListed(convs: seq<Conversation>, categories: seq<String>, id: String, selected: Option<String>)
    ensures var r := EditConversationCategory(convs, categories, id, selected);
      && |r| == |convs|
      && forall k :: 0 <= k < |r| ==>
           && r[k].(category := convs[k].category) == convs[k]
           && (r[k].category == convs[k].category || (r[k].category.Some? && r[k].category.value in categories))
  {
  }

  /** Choosing the same category twice is choosing it once. */
  lemma EditConversationCategoryIdempotent(convs: seq<Conversation>, categories: seq<String>, id: String, selected: Option<String>)
    ensures var once := EditConversationCategory(convs, categories, id, selected);
      EditConversationCategory(once, categories, id, selected) == once
  {
    var once := EditConversationCategory(convs, categories, id, selected);
    SameIdsSameIndex(convs, once, id);
  }

  // ---------------------------------------------------------------------
  // Loading, importing, statistics
  // ---------------------------------------------------------------------

  /** `savedConversations.map(c => ({ category: 'other', ...c }))`. */
  function LoadConversations(convs: seq<Conversation>): (r: seq<Conversation>)
    ensures |r| == |convs|
    ensures forall i :: 0 <= i < |convs| ==> r[i].category.Some?
    ensures forall i :: 0 <= i < |convs| && convs[i].category.Some? ==> r[i] == convs[i]
    ensures forall i :: 0 <= i < |convs| && convs[i].category.None? ==> r[i] == convs[i].(category := Some("other"))
  {
    seq(|convs|, i requires 0 <= i < |convs| =>
      if convs[i].category.None? then convs[i].(category := Some("other")) else convs[i])
  }

  /** Loading a loaded list changes nothing, and a list whose conversations
      all have a category loads as it is. */
  lemma LoadConversationsIdempotent(convs: seq<Conversation>)
    ensures LoadConversations(LoadConversations(convs)) == LoadConversations(convs)
    ensures (forall i :: 0 <= i < |convs| ==> convs[i].category.Some?) ==> LoadConversations(convs) == convs
  {
  }

  /** `settings.categories || [defaults]`. */
  function LoadCategories(settings: Obj): (r: seq<String>)
    ensures Lookup(settings, "categories").List? ==> r == Lookup(settings, "categories").items
    ensures !Lookup(settings, "categories").List? ==> r == DefaultCategories
  {
    match Lookup(settings, "categories")
    case List(items) => items
    case _ => DefaultCategories
  }

  /** The list the options page stores through `updateSetting('categories', …)`
      loads back unchanged, whatever else the settings hold. */
  lemma LoadCategoriesRoundTrip(settings: Obj, categories: seq<String>)
    ensures LoadCategories(Options.UpdateSetting(settings, "categories", List(categories)).settings) == categories
  {
  }

  /** A fresh install loads the seven default categories. */
  lemma FreshInstallLoadsDefaults()
    ensures LoadCategories(Background.SettingsOf(Background.InitialStore())) == DefaultCategories
  {
  }

  /** The import button: present lists are appended to the current ones. */
  function ImportAppend<T>(current: seq<T>, imported: Option<seq<T>>): (r: seq<T>)
    ensures imported.None? ==> r == current
    ensures imported.Some? ==> |r| == |current| + |imported.value|
    ensures imported.Some? ==> r[..|current|] == current && r[|current|..] == imported.value
  {
    match imported
    case None => current
    case Some(xs) => current + xs
  }

  /** Importing adds exactly the imported entries: as multisets, the result
      is the current list plus the imported one. */
  lemma ImportAppendMultiset<T>(current: seq<T>, imported: Option<seq<T>>)
    ensures imported.Some? ==> multiset(ImportAppend(current, imported)) == multiset(current) + multiset(imported.value)
    ensures imported.None? ==> multiset(ImportAppend(current, imported)) == multiset(current)
  {
  }

  /** `updateSyncStats`: one more sync, the current list sizes and the time. */
  function UpdateSyncStats(stats: Obj, gptCount: nat, conversationCount: nat, now: int): (r: Obj)
    ensures CounterOr0(r, "totalSyncs") == CounterOr0(stats, "totalSyncs") + 1
    ensures CounterOr0(r, "totalGPTs") == gptCount && CounterOr0(r, "totalConversations") == conversationCount
    ensures Lookup(r, "lastSyncTime") == Num(now)
    ensures r.Keys == stats.Keys + {"totalSyncs", "totalGPTs", "totalConversations", "lastSyncTime"}
    ensures forall k :: k in stats && k !in {"totalSyncs", "totalGPTs", "totalConversations", "lastSyncTime"} ==> r[k] == stats[k]
  {
    Overlay(stats, map[
      "totalSyncs" := Num(CounterOr0(stats, "totalSyncs") + 1),
      "totalGPTs" := Num(gptCount),
      "totalConversations" := Num(conversationCount),
      "lastSyncTime" := Num(now)])
  }

  /** The popup's sync bookkeeping agrees with the service worker's
      `recordSync` on the count and the time. */
  lemma SyncStatsAgreeWithBackground(stats: Obj, gptCount: nat, conversationCount: nat, now: int)
    ensures CounterOr0(UpdateSyncStats(stats, gptCount, conversationCount, now), "totalSyncs")
      == CounterOr0(Background.RecordSync(stats, now), "totalSyncs")
    ensures Lookup(UpdateSyncStats(stats, gptCount, conversationCount, now), "lastSyncTime")
      == Lookup(Background.RecordSync(stats, now), "lastSyncTime")
  {
  }
}
