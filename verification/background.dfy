/**
  The service worker's rules (background.js): first-install defaults, data
  migration, the auto-sync gate, statistics, the context-menu "add this GPT"
  action, the badge, and the message handler.

  Storage is a `Store` value passed in and returned; the clock is `now`.
 */
module Background {
  import opened Wrappers
  import opened Text
  import opened Records
  import opened Versions
  import Sorting
  import Cleanup
  import Scraper

  /** What the service worker keeps in `chrome.storage.local`. */
  datatype Store = Store(
    settings: Option<Obj>,
    gpts: Option<seq<Gpt>>,
    conversations: Option<seq<Conversation>>,
    stats: Option<Obj>,
    lastAutoSync: Option<int>
  )

  /** `getStorageData(key) || []` for the two lists. */
  function GptsOf(st: Store): seq<Gpt> {
    st.gpts.GetOr([])
  }

  function ConversationsOf(st: Store): seq<Conversation> {
    st.conversations.GetOr([])
  }

  /** `getStorageData(key) || {}` for the two objects. */
  function SettingsOf(st: Store): Obj {
    st.settings.GetOr(map[])
  }

  function StatsOf(st: Store): Obj {
    st.stats.GetOr(map[])
  }

  // ---------------------------------------------------------------------
  // First install
  // ---------------------------------------------------------------------

  const DefaultSyncIntervalMinutes: int := 5
  const MinuteMs: int := 60 * 1000

  /** `initializeDefaultData`: default settings, empty lists, zeroed stats. */
  function InitialStore(): (st: Store)
    ensures GptsOf(st) == [] && ConversationsOf(st) == []
    ensures Lookup(SettingsOf(st), "categories") == List(DefaultCategories)
    ensures Truthy(Lookup(SettingsOf(st), "autoSync"))
    ensures CounterOr0(StatsOf(st), "totalSyncs") == 0
    ensures st.lastAutoSync.None?
  {
    Store(
      Some(map[
        "theme" := Str("light"),
        "autoSync" := Bool(true),
        "syncInterval" := Num(DefaultSyncIntervalMinutes),
        "notifications" := Bool(true),
        "categories" := List(DefaultCategories),
        "lastSync" := Null]),
      Some([]),
      Some([]),
      Some(map[
        "totalSyncs" := Num(0),
        "lastSyncDate" := Null,
        "totalGPTs" := Num(0),
        "totalConversations" := Num(0)]),
      None)
  }

  // ---------------------------------------------------------------------
  // migrateData
  // ---------------------------------------------------------------------

  /** `usageCount || 0`, `lastUsed || now`, `category || 'other'`. Dates are
      milliseconds, and a stored `lastUsed` of 0 stands for the empty date
      string "", the one falsy value a stored date can take besides a missing
      one. */
  function MigrateGpt(g: Gpt, now: int): (m: Gpt)
    ensures m.usageCount == Some(UsageOf(g))
    ensures g.lastUsed.Some? && g.lastUsed.value != 0 ==> m.lastUsed == g.lastUsed
    ensures g.lastUsed.None? || g.lastUsed == Some(0) ==> m.lastUsed == Some(now)
    ensures g.category.Some? && g.category.value != [] ==> m.category == g.category
    ensures g.category.None? || g.category == Some([]) ==> m.category == Some("other")
    ensures m.(usageCount := g.usageCount, lastUsed := g.lastUsed, category := g.category) == g
  {
    g.(usageCount := Some(UsageOf(g)),
       lastUsed := if g.lastUsed.None? || g.lastUsed == Some(0) then Some(now) else g.lastUsed,
       category := if g.category.None? || g.category == Some([]) then Some("other") else g.category)
  }

  /** Migrating a migrated GPT again, at any later time, changes nothing. */
  lemma MigrateGptIdempotent(g: Gpt, now: int, later: int)
    requires now != 0
    ensures MigrateGpt(MigrateGpt(g, now), later) == MigrateGpt(g, now)
  {
  }

  /** `migrateData`: GPTs stored before version 1.0.0 get their missing
      fields filled in; `None` means storage is not written. */
  function MigrateData(fromVersion: String, gpts: seq<Gpt>, now: int): (r: Option<seq<Gpt>>)
    ensures r.Some? <==> CompareVersions(fromVersion, "1.0.0") < 0
    ensures r.Some? ==> |r.value| == |gpts|
    ensures r.Some? ==> forall k :: 0 <= k < |gpts| ==> r.value[k] == MigrateGpt(gpts[k], now)
  {
    if CompareVersions(fromVersion, "1.0.0") < 0 then Some(MigrateAll(gpts, now)) else None
  }

  /** `gpts.map(migrate)`. */
  function MigrateAll(gpts: seq<Gpt>, now: int): (r: seq<Gpt>)
    ensures |r| == |gpts|
    ensures forall k :: 0 <= k < |gpts| ==> r[k] == MigrateGpt(gpts[k], now)
  {
    if |gpts| == 0 then [] else [MigrateGpt(gpts[0], now)] + MigrateAll(gpts[1..], now)
  }

  /** After a migration every GPT has a usage count, a last-use time and a
      non-empty category. */
  lemma MigratedGptsAreComplete(fromVersion: String, gpts: seq<Gpt>, now: int)
    ensures MigrateData(fromVersion, gpts, now).Some? ==> forall g :: g in MigrateData(fromVersion, gpts, now).value ==>
      g.usageCount.Some? && g.lastUsed.Some? && g.category.Some? && g.category.value != []
  {
    MigrateAllComplete(gpts, now);
  }

  lemma MigrateAllComplete(gpts: seq<Gpt>, now: int)
    ensures forall g :: g in MigrateAll(gpts, now) ==>
      g.usageCount.Some? && g.lastUsed.Some? && g.category.Some? && g.category.value != []
  {
    var r := MigrateAll(gpts, now);
    forall g | g in r
      ensures g.usageCount.Some? && g.lastUsed.Some? && g.category.Some? && g.category.value != []
    {
      var k :| 0 <= k < |r| && r[k] == g;
      assert g == MigrateGpt(gpts[k], now);
    }
  }

  /** The update from 0.9 migrates; the update from 1.0 does not. */
  lemma MigrationThreshold(gpts: seq<Gpt>, now: int)
    ensures MigrateData("0.9", gpts, now).Some?
    ensures MigrateData("1.0", gpts, now).None?
  {
    OldVersionIsLess();
    CurrentVersionIsEqual();
  }

  lemma OldVersionIsLess()
    ensures CompareVersions("0.9", "1.0.0") == -1
  {
    OlderMajorIsLess("0.9", "1.0.0");
  }

  lemma CurrentVersionIsEqual()
    ensures CompareVersions("1.0", "1.0.0") == 0
  {
    OneZeroWithTrailingZero();
    TrailingZeroIsEqual("1.0");
  }

  lemma OneZeroWithTrailingZero()
    ensures "1.0" + ".0" == "1.0.0"
  {
  }

  /** A smaller leading digit makes the whole version smaller. */
  lemma OlderMajorIsLess(v: String, w: String)
    requires |v| >= 2 && |w| >= 2 && v[1] == '.' && w[1] == '.'
    requires IsAsciiDigit(v[0]) && IsAsciiDigit(w[0]) && DigitValue(v[0]) < DigitValue(w[0])
    ensures CompareVersions(v, w) == -1
  {
    assert v == [v[0]] + ['.'] + v[2..];
    assert w == [w[0]] + ['.'] + w[2..];
    LeadingComponent(v[0], v[2..]);
    LeadingComponent(w[0], w[2..]);
    assert FirstLessAt(Components(v), Components(w), 0, 0);
  }

  /** The first component of "d.rest" is the digit d. */
  lemma LeadingComponent(c: char, t: String)
    requires IsAsciiDigit(c)
    ensures Components([c] + ['.'] + t)[0] == DigitValue(c)
  {
    SplitAtSeparator([c], t, '.');
    SplitDigit(c);
    ComponentDigit(c);
  }

  lemma SplitDigit(c: char)
    requires c != '.'
    ensures Split([c], '.') == [[c]]
  {
    var z := [c];
    assert z[1..] == [] && z[0] != '.';
    assert Split([], '.') == [[]];
    assert Split(z, '.') == [[z[0]] + Split([], '.')[0]] + Split([], '.')[1..];
    assert [z[0]] + Split([], '.')[0] == z;
  }

  lemma ComponentDigit(c: char)
    requires IsAsciiDigit(c)
    ensures ComponentValue([c]) == DigitValue(c)
  {
    assert !IsSpace(c);
    assert Trim([c]) == [c] by { TrimFixpoint([c]); }
    assert AllAsciiDigits([c]);
    assert [c][..0] == [];
    assert DecimalValue([c]) == DecimalValue([]) * 10 + DigitValue(c);
  }

  // ---------------------------------------------------------------------
  // triggerAutoSync: the interval gate
  // ---------------------------------------------------------------------

  /** `(settings.syncInterval || 5) * 60 * 1000`. */
  function SyncIntervalMs(settings: Obj): (ms: int)
    ensures Lookup(settings, "syncInterval").Num? && Lookup(settings, "syncInterval").n != 0
      ==> ms == Lookup(settings, "syncInterval").n * MinuteMs
    ensures !Truthy(Lookup(settings, "syncInterval")) ==> ms == DefaultSyncIntervalMinutes * MinuteMs
  {
    match Lookup(settings, "syncInterval")
    case Num(n) => (if n != 0 then n else DefaultSyncIntervalMinutes) * MinuteMs
    case _ => DefaultSyncIntervalMinutes * MinuteMs
  }

  /** `!lastSync || (now - lastSync) > syncInterval`. */
  predicate AutoSyncDue(lastAutoSync: Option<int>, settings: Obj, now: int) {
    match lastAutoSync
    case None => true
    case Some(last) => last == 0 || now - last > SyncIntervalMs(settings)
  }

  /** Once due, a sync stays due as time passes. */
  lemma AutoSyncDueMonotone(lastAutoSync: Option<int>, settings: Obj, now: int, later: int)
    requires now <= later && AutoSyncDue(lastAutoSync, settings, now)
    ensures AutoSyncDue(lastAutoSync, settings, later)
  {
  }

  /** The comparison is strict: exactly one interval after a sync is too
      early, one millisecond more is enough. */
  lemma AutoSyncGateIsStrict(last: int, settings: Obj)
    requires last != 0
    ensures !AutoSyncDue(Some(last), settings, last + SyncIntervalMs(settings))
    ensures AutoSyncDue(Some(last), settings, last + SyncIntervalMs(settings) + 1)
  {
  }

  /** `recordSync`: one more sync, stamped `now`; every other field kept. */
  function RecordSync(stats: Obj, now: int): (r: Obj)
    ensures CounterOr0(r, "totalSyncs") == CounterOr0(stats, "totalSyncs") + 1
    ensures Lookup(r, "lastSyncTime") == Num(now)
    ensures r.Keys == stats.Keys + {"totalSyncs", "lastSyncTime"}
    ensures forall k :: k in stats && k != "totalSyncs" && k != "lastSyncTime" ==> r[k] == stats[k]
  {
    Overlay(stats, map["totalSyncs" := Num(CounterOr0(stats, "totalSyncs") + 1), "lastSyncTime" := Num(now)])
  }

  /** `triggerAutoSync`: when the gate is open and the page answered the
      "syncGPTs" request successfully, stamp the sync time and record it. */
  function TriggerAutoSync(st: Store, now: int, reply: Scraper.ContentResponse): (r: Store)
    ensures !AutoSyncDue(st.lastAutoSync, SettingsOf(st), now) || !reply.Success() ==> r == st
    ensures AutoSyncDue(st.lastAutoSync, SettingsOf(st), now) && reply.Success() ==>
      r == st.(lastAutoSync := Some(now), stats := Some(RecordSync(StatsOf(st), now)))
  {
    if AutoSyncDue(st.lastAutoSync, SettingsOf(st), now) && reply.Success() then
      st.(lastAutoSync := Some(now), stats := Some(RecordSync(StatsOf(st), now)))
    else
      st
  }

  /** Right after a successful automatic sync no other one is due until the
      interval has passed (unless the clock reads 0). */
  lemma NoAutoSyncWithinInterval(st: Store, now: int, reply: Scraper.ContentResponse, later: int)
    requires AutoSyncDue(st.lastAutoSync, SettingsOf(st), now) && reply.Success()
    requires now != 0 && now <= later <= now + SyncIntervalMs(SettingsOf(st))
    ensures !AutoSyncDue(TriggerAutoSync(st, now, reply).lastAutoSync, SettingsOf(TriggerAutoSync(st, now, reply)), later)
  {
  }

  // ---------------------------------------------------------------------
  // getCategoryBreakdown
  // ---------------------------------------------------------------------

  /** The key a GPT is counted under: its category, or "undefined". */
  function BreakdownKey(g: Gpt): String {
    match g.category
    case Some(c) => c
    case None => "undefined"
  }

  /** Number of GPTs counted under `key`. */
  function CountWithKey(gpts: seq<Gpt>, key: String): (n: nat)
    ensures n <= |gpts|
  {
    if |gpts| == 0 then 0
    else CountWithKey(gpts[..|gpts| - 1], key) + (if BreakdownKey(gpts[|gpts| - 1]) == key then 1 else 0)
  }

  /** A breakdown object, as its entries in insertion order. */
  type Breakdown = seq<(String, nat)>

  /** `breakdown[key] || 0`. */
  function Get(b: Breakdown, key: String): nat {
    if |b| == 0 then 0
    else if b[0].0 == key then b[0].1
    else Get(b[1..], key)
  }

  function KeySet(b: Breakdown): set<String> {
    if |b| == 0 then {} else {b[0].0} + KeySet(b[1..])
  }

  /** No key occurs twice; every count is positive. */
  predicate WellFormed(b: Breakdown) {
    |b| == 0 || (b[0].0 !in KeySet(b[1..]) && b[0].1 > 0 && WellFormed(b[1..]))
  }

  /** Sum of the counts. */
  function Total(b: Breakdown): nat {
    if |b| == 0 then 0 else b[0].1 + Total(b[1..])
  }

  /** `breakdown[key] = (breakdown[key] || 0) + 1`. */
  function Bump(b: Breakdown, key: String): (r: Breakdown)
    ensures forall k :: Get(r, k) == Get(b, k) + (if k == key then 1 else 0)
    ensures KeySet(r) == KeySet(b) + {key}
    ensures Total(r) == Total(b) + 1
    ensures WellFormed(b) ==> WellFormed(r)
  {
    if |b| == 0 then
      [(key, 1)]
    else if b[0].0 == key then
      var r := [(key, b[0].1 + 1)] + b[1..];
      assert r[1..] == b[1..];
      r
    else
      var r := [b[0]] + Bump(b[1..], key);
      assert r[1..] == Bump(b[1..], key);
      r
  }

  /** `getCategoryBreakdown`: the number of GPTs under each category key; the
      keys are exactly those with a positive count, and the counts add up to
      the number of GPTs. */
  function CategoryBreakdown(gpts: seq<Gpt>): (b: Breakdown)
    ensures WellFormed(b)
    ensures forall key :: Get(b, key) == CountWithKey(gpts, key)
    ensures forall key :: key in KeySet(b) <==> CountWithKey(gpts, key) > 0
    ensures Total(b) == |gpts|
  {
    if |gpts| == 0 then []
    else
      var n := |gpts| - 1;
      var init := CategoryBreakdown(gpts[..n]);
      var r := Bump(init, BreakdownKey(gpts[n]));
      assert forall key :: key in KeySet(r) <==> Get(r, key) > 0 by {
        GetPositiveIffKey(r);
      }
      r
  }

  lemma {:induction false} GetPositiveIffKey(b: Breakdown)
    requires WellFormed(b)
    ensures forall key :: key in KeySet(b) <==> Get(b, key) > 0
  {
    if |b| > 0 {
      GetPositiveIffKey(b[1..]);
    }
  }

  /** A value in the breakdown object as written: a number, or, under a key
      the object inherits, the inherited member's source text followed by
      `ones` copies of the digit 1 (the inherited function is truthy, so
      `+ 1` concatenates). */
  datatype Tally = Count(n: nat) | Garbled(member: String, ones: nat)

  /** `breakdown[key] = (breakdown[key] || 0) + 1` on a plain object.  An
      inherited member is truthy, so the first bump stores text instead of
      1; assigning a string to "__proto__" is ignored. */
  function BumpAsWritten(b: map<String, Tally>, key: String): (r: map<String, Tally>)
    ensures key == "__proto__" ==> r == b
    ensures key != "__proto__" ==> r.Keys == b.Keys + {key}
    ensures forall k :: k in b && k != key ==> k in r && r[k] == b[k]
  {
    if key == "__proto__" then b
    else if key in b then
      match b[key]
      case Count(n) => b[key := Count(n + 1)]
      case Garbled(m, o) => b[key := Garbled(m, o + 1)]
    else if key in ObjectPrototypeKeys then b[key := Garbled(key, 1)]
    else b[key := Count(1)]
  }

  /** `getCategoryBreakdown` as written. */
  function CategoryBreakdownAsWritten(gpts: seq<Gpt>): map<String, Tally> {
    if |gpts| == 0 then map[]
    else
      var n := |gpts| - 1;
      BumpAsWritten(CategoryBreakdownAsWritten(gpts[..n]), BreakdownKey(gpts[n]))
  }

  /** Off the inherited names the breakdown as written counts like
      `CategoryBreakdown`; under an inherited name other than "__proto__" it
      holds text, and "__proto__" never appears. */
  lemma {:induction false} BreakdownAsWrittenEntry(gpts: seq<Gpt>, key: String)
    ensures key in CategoryBreakdownAsWritten(gpts) <==> key != "__proto__" && CountWithKey(gpts, key) > 0
    ensures key in CategoryBreakdownAsWritten(gpts) ==>
      CategoryBreakdownAsWritten(gpts)[key] ==
        if key in ObjectPrototypeKeys then Garbled(key, CountWithKey(gpts, key)) else Count(CountWithKey(gpts, key))
  {
    if |gpts| > 0 {
      BreakdownAsWrittenEntry(gpts[..|gpts| - 1], key);
    }
  }

  /** Off the inherited names the breakdown as written has the same keys and
      counts as the corrected one. */
  lemma BreakdownsAgreeOffPrototype(gpts: seq<Gpt>, key: String)
    ensures key !in ObjectPrototypeKeys ==>
      && (key in CategoryBreakdownAsWritten(gpts) <==> key in KeySet(CategoryBreakdown(gpts)))
      && (key in CategoryBreakdownAsWritten(gpts) ==> CategoryBreakdownAsWritten(gpts)[key] == Count(Get(CategoryBreakdown(gpts), key)))
  {
    BreakdownAsWrittenEntry(gpts, key);
  }

  /** One GPT filed under "constructor" is stored as text in the breakdown as
      written, where the corrected breakdown counts 1; one filed under
      "__proto__" is not stored at all. */
  lemma InheritedCategoryIsMiscounted(g: Gpt)
    ensures g.category == Some("constructor") ==>
      && CategoryBreakdownAsWritten([g]) == map["constructor" := Garbled("constructor", 1)]
      && Get(CategoryBreakdown([g]), "constructor") == 1
    ensures g.category == Some("__proto__") ==>
      && CategoryBreakdownAsWritten([g]) == map[]
      && Get(CategoryBreakdown([g]), "__proto__") == 1
  {
    assert [g][..0] == [];
  }

  // ---------------------------------------------------------------------
  // getUsageStats
  // ---------------------------------------------------------------------

  /** `gpts.reduce((sum, gpt) => sum + (gpt.usageCount || 0), 0)`. */
  function TotalUsage(gpts: seq<Gpt>): int {
    if |gpts| == 0 then 0 else TotalUsage(gpts[..|gpts| - 1]) + UsageOf(gpts[|gpts| - 1])
  }

  /** The integer parts of `getUsageStats`. */
  datatype UsageStats = UsageStats(totalUsage: int, mostUsed: Option<Gpt>)

  /** `getUsageStats`: the usage total and the head of the list sorted by
      usage, largest first. */
  function GetUsageStats(gpts: seq<Gpt>): (u: UsageStats)
    ensures u.totalUsage == TotalUsage(gpts)
    ensures u.mostUsed.None? <==> |gpts| == 0
    ensures u.mostUsed.Some? ==> u.mostUsed.value in gpts
    ensures u.mostUsed.Some? ==> forall g :: g in gpts ==> UsageOf(g) <= UsageOf(u.mostUsed.value)
  {
    if |gpts| == 0 then UsageStats(0, None)
    else
      var sorted := Sorting.SortByKeyDesc(gpts, UsageOf);
      assert sorted[0] in multiset(gpts);
      assert forall g :: g in gpts ==> UsageOf(g) <= UsageOf(sorted[0]) by {
        forall g | g in gpts
          ensures UsageOf(g) <= UsageOf(sorted[0])
        {
          assert g in multiset(sorted);
          var k :| 0 <= k < |sorted| && sorted[k] == g;
        }
      }
      UsageStats(TotalUsage(gpts), Some(sorted[0]))
  }

  /** Ties go to the earliest GPT: the sort is stable. */
  lemma MostUsedIsFirstMaximum(gpts: seq<Gpt>)
    requires |gpts| > 0
    ensures GetUsageStats(gpts).mostUsed == Some(gpts[Sorting.FirstMaxIndex(gpts, UsageOf)])
  {
    Sorting.SortHeadIsFirstMax(gpts, UsageOf);
  }

  /** With no negative counts the total is at least any one count, the
      most-used one included. */
  lemma {:induction false} TotalUsageBoundsEach(gpts: seq<Gpt>, i: int)
    requires forall g :: g in gpts ==> UsageOf(g) >= 0
    requires 0 <= i < |gpts|
    ensures TotalUsage(gpts) >= UsageOf(gpts[i])
    decreases |gpts|
  {
    var n := |gpts| - 1;
    TotalUsageNonNegative(gpts[..n]);
    if i < n {
      assert gpts[..n][i] == gpts[i];
      TotalUsageBoundsEach(gpts[..n], i);
    }
  }

  lemma {:induction false} TotalUsageNonNegative(gpts: seq<Gpt>)
    requires forall g :: g in gpts ==> UsageOf(g) >= 0
    ensures TotalUsage(gpts) >= 0
    decreases |gpts|
  {
    if |gpts| > 0 {
      var n := |gpts| - 1;
      assert forall g :: g in gpts[..n] ==> g in gpts;
      TotalUsageNonNegative(gpts[..n]);
    }
  }

  /** What `updateStats` writes: the stored statistics object with fresh
      totals and update time, plus the breakdown and usage objects. */
  datatype StatsUpdate = StatsUpdate(stats: Obj, breakdown: Breakdown, usage: UsageStats)

  /** The statistics object of `updateStats`: fresh totals and update time;
      the old breakdown and usage objects are dropped, since the update
      carries their replacements; every other field kept. */
  function RefreshedStats(stats: Obj, gptCount: nat, conversationCount: nat, now: int): (r: Obj)
    ensures CounterOr0(r, "totalGPTs") == gptCount
    ensures CounterOr0(r, "totalConversations") == conversationCount
    ensures Lookup(r, "lastUpdateDate") == Num(now)
    ensures r.Keys == stats.Keys - {"categoryBreakdown", "usageStats"} + {"totalGPTs", "totalConversations", "lastUpdateDate"}
    ensures forall k :: k in stats && k !in {"totalGPTs", "totalConversations", "lastUpdateDate", "categoryBreakdown", "usageStats"} ==> r[k] == stats[k]
  {
    Overlay(stats - {"categoryBreakdown", "usageStats"}, map[
      "totalGPTs" := Num(gptCount),
      "totalConversations" := Num(conversationCount),
      "lastUpdateDate" := Num(now)])
  }

  /** `updateStats`. */
  function UpdateStats(st: Store, now: int): (r: StatsUpdate)
    ensures r.stats == RefreshedStats(StatsOf(st), |GptsOf(st)|, |ConversationsOf(st)|, now)
    ensures Total(r.breakdown) == |GptsOf(st)|
    ensures forall key :: Get(r.breakdown, key) == CountWithKey(GptsOf(st), key)
    ensures r.usage.totalUsage == TotalUsage(GptsOf(st))
  {
    StatsUpdate(RefreshedStats(StatsOf(st), |GptsOf(st)|, |ConversationsOf(st)|, now),
                CategoryBreakdown(GptsOf(st)), GetUsageStats(GptsOf(st)))
  }

  // ---------------------------------------------------------------------
  // removeDuplicates
  // ---------------------------------------------------------------------

  /** `removeDuplicates`: both lists filtered by the url-or-id rule; storage is
      written (a `Some` result) iff something was removed. */
  function RemoveDuplicates(st: Store): (r: Option<Store>)
    ensures r.None? <==>
      Cleanup.UniqueGpts(GptsOf(st)) == GptsOf(st) && Cleanup.UniqueConversations(ConversationsOf(st)) == ConversationsOf(st)
    ensures r.Some? ==> r.value == st.(gpts := Some(Cleanup.UniqueGpts(GptsOf(st))),
                                       conversations := Some(Cleanup.UniqueConversations(ConversationsOf(st))))
  {
    var gpts := GptsOf(st);
    var convs := ConversationsOf(st);
    var uniqueGpts := Cleanup.UniqueGpts(gpts);
    var uniqueConvs := Cleanup.UniqueConversations(convs);
    Cleanup.SameLengthMeansNothingRemoved(gpts, convs);
    if |uniqueGpts| != |gpts| || |uniqueConvs| != |convs| then
      Some(st.(gpts := Some(uniqueGpts), conversations := Some(uniqueConvs)))
    else
      None
  }

  /** A second clean-up right after the first writes nothing. */
  lemma RemoveDuplicatesSettles(st: Store)
    requires RemoveDuplicates(st).Some?
    ensures RemoveDuplicates(RemoveDuplicates(st).value).None?
  {
    Cleanup.UniqueGptsIdempotent(GptsOf(st));
    Cleanup.UniqueConversationsIdempotent(ConversationsOf(st));
  }

  // ---------------------------------------------------------------------
  // addGPTFromUrl
  // ---------------------------------------------------------------------

  const ContextMenuName: String := "GPT Ajouté"
  const ContextMenuDescription: String := "Ajouté depuis le menu contextuel"
  const ContextMenuSource: String := "context-menu"

  datatype AddOutcome = NotAGptLink | AlreadyPresent | Added(gpts: seq<Gpt>)

  /** The name taken from the page title: `title.replace(' | ChatGPT', '').trim()`,
      or the default when the page gave no title. */
  function NameFromTitle(title: Option<String>): (name: String)
    ensures title.None? || title == Some([]) ==> name == ContextMenuName
    ensures title.Some? && title.value != [] && !Contains(title.value, TitleSuffix) ==> name == Trim(title.value)
  {
    match title
    case Some(t) => if |t| > 0 then Trim(ReplaceFirst(t, TitleSuffix, "")) else ContextMenuName
    case None => ContextMenuName
  }

  /** The tab suffix ChatGPT adds to a page title. */
  const TitleSuffix: String := " | ChatGPT"

  /** A title made of a name and the tab suffix yields the trimmed name. */
  lemma NameFromTitleStripsSuffix(p: String)
    ensures !Contains(p, TitleSuffix) ==> NameFromTitle(Some(p + TitleSuffix)) == Trim(p)
  {
    if !Contains(p, TitleSuffix) {
      var t := p + TitleSuffix;
      assert t[|p|..|p| + |TitleSuffix|] == TitleSuffix;
      forall j | 0 <= j < |p|
        ensures !OccursAt(t, TitleSuffix, j)
      {
        if j + |TitleSuffix| <= |p| {
          SuffixNotInsideName(p, j);
        } else {
          SuffixDoesNotOverlap(p, j);
        }
      }
      assert ReplaceFirst(t, TitleSuffix, "") == p by {
        assert t[..|p|] == p;
        assert t[|p| + |TitleSuffix|..] == [];
      }
    }
  }

  /** A name without the suffix has no occurrence of it wholly inside. */
  lemma SuffixNotInsideName(p: String, j: int)
    requires !Contains(p, TitleSuffix) && 0 <= j && j + |TitleSuffix| <= |p|
    ensures !OccursAt(p + TitleSuffix, TitleSuffix, j)
  {
    assert (p + TitleSuffix)[j..j + |TitleSuffix|] == p[j..j + |TitleSuffix|];
    assert !OccursAt(p, TitleSuffix, j);
  }

  /** The suffix cannot start inside the name and run into its own copy at
      the end: no shift of it lines up its leading " |" again. */
  lemma SuffixDoesNotOverlap(p: String, j: int)
    requires 0 <= j < |p| < j + |TitleSuffix|
    ensures !OccursAt(p + TitleSuffix, TitleSuffix, j)
  {
    var t := p + TitleSuffix;
    var d := |p| - j;
    var w := t[j..j + |TitleSuffix|];
    assert w[d] == t[|p|] == ' ';
    if d + 1 < |TitleSuffix| {
      assert w[d + 1] == t[|p| + 1] == '|';
    }
    SuffixHasNoShift(d);
  }

  lemma SuffixHasNoShift(d: int)
    requires 1 <= d < |TitleSuffix|
    ensures TitleSuffix[d] != ' ' || (d + 1 < |TitleSuffix| && TitleSuffix[d + 1] != '|')
  {
  }

  /** `addGPTFromUrl`: nothing unless the link matches `/g/<id>` and no stored
      GPT has the same url; otherwise exactly one GPT is appended. */
  function AddGptFromUrl(url: String, gpts: seq<Gpt>, title: Option<String>, now: int): (r: AddOutcome)
    ensures r == NotAGptLink <==> Scraper.ExtractSegment(url, Scraper.GptMarker).None?
    ensures r == AlreadyPresent <==>
      Scraper.ExtractSegment(url, Scraper.GptMarker).Some? && exists g :: g in gpts && g.url == url
    ensures r.Added? ==> |r.gpts| == |gpts| + 1 && r.gpts[..|gpts|] == gpts
    ensures r.Added? ==> var g := r.gpts[|gpts|];
      && Some(g.id) == Scraper.ExtractSegment(url, Scraper.GptMarker)
      && g.url == url && g.name == NameFromTitle(title)
      && g.category == Some("other") && g.usageCount == Some(0) && !g.favorite
      && g.source == ContextMenuSource
  {
    match Scraper.ExtractSegment(url, Scraper.GptMarker)
    case None => NotAGptLink
    case Some(id) =>
      if exists g :: g in gpts && g.url == url then AlreadyPresent
      else
        var g := Gpt(id, NameFromTitle(title), ContextMenuDescription, None, url, Some("other"),
                     false, Some(0), Some(now), now, ContextMenuSource);
        assert (gpts + [g])[..|gpts|] == gpts;
        Added(gpts + [g])
  }

  /** The title request goes to the content script, which has no
      "getCurrentPageTitle" case: the reply carries no title, so a GPT added
      from the context menu is always named "GPT Ajouté". */
  lemma ContextMenuNameIsAlwaysDefault(url: String, gpts: seq<Gpt>, page: Scraper.Page, now: int)
    requires AddGptFromUrl(url, gpts, TitleFromReply(Scraper.HandleContentMessage("getCurrentPageTitle", page, now)), now).Added?
    ensures Scraper.HandleContentMessage("getCurrentPageTitle", page, now) == Scraper.Failed(Scraper.UnknownAction)
    ensures var r := AddGptFromUrl(url, gpts, TitleFromReply(Scraper.HandleContentMessage("getCurrentPageTitle", page, now)), now);
      r.gpts[|gpts|].name == ContextMenuName
  {
    assert "getCurrentPageTitle" !in Scraper.ContentActions;
  }

  /** `response && response.title`: no reply of the content script carries a
      title field. */
  function TitleFromReply(reply: Scraper.ContentResponse): Option<String> {
    match reply
    case GptsSynced(_) => None
    case ConversationsSynced(_) => None
    case CurrentUrl(_) => None
    case Done => None
    case Failed(_) => None
  }

  // ---------------------------------------------------------------------
  // Badge
  // ---------------------------------------------------------------------

  /** `gpts.length > 0 ? gpts.length.toString() : ''`. */
  function BadgeText(gpts: seq<Gpt>): (text: String)
    ensures text == [] <==> |gpts| == 0
    ensures text != [] ==> AllAsciiDigits(text) && DecimalValue(text) == |gpts| && text[0] != '0'
  {
    if |gpts| > 0 then NatToString(|gpts|) else []
  }

  /** A fresh installation shows no badge and syncs on the first ChatGPT tab. */
  lemma FreshInstallState(now: int)
    ensures BadgeText(GptsOf(InitialStore())) == []
    ensures AutoSyncDue(InitialStore().lastAutoSync, SettingsOf(InitialStore()), now)
  {
  }

  // ---------------------------------------------------------------------
  // handleMessage
  // ---------------------------------------------------------------------

  /** What `exportAllData` returns: everything stored, the export time and the
      extension version. */
  datatype ExportBundle = ExportBundle(store: Store, exportDate: int, version: String)

  datatype BackgroundResponse =
    | Ok
    | Stats(stats: Obj)
    | Exported(data: ExportBundle)
    | Failed(error: String)
  {
    predicate Success() { !Failed? }
  }

  /** The error `performSync` raises: the method does not exist. */
  const MissingPerformSync: String := "this.performSync is not a function"

  /** `handleMessage` of the service worker: the reply and the new store. */
  function HandleBackgroundMessage(action: String, newSettings: Option<Obj>, st: Store, now: int, version: String)
    : (r: (BackgroundResponse, Store))
    ensures r.0.Success() <==> action in ["getStats", "updateSettings", "exportData", "showNotification"]
    ensures action == "syncData" ==> r == (Failed(MissingPerformSync), st)
    ensures action == "getStats" ==> r == (Stats(StatsOf(st)), st)
    ensures action == "exportData" ==> r == (Exported(ExportBundle(st, now, version)), st)
    ensures action == "updateSettings" ==> r.1 == st.(settings := Some(Overlay(SettingsOf(st), newSettings.GetOr(map[]))))
    ensures action != "updateSettings" ==> r.1 == st
    ensures !r.0.Success() && action != "syncData" ==> r.0 == Failed(Scraper.UnknownAction)
  {
    if action == "syncData" then (Failed(MissingPerformSync), st)
    else if action == "getStats" then (Stats(StatsOf(st)), st)
    else if action == "updateSettings" then
      (Ok, st.(settings := Some(Overlay(SettingsOf(st), newSettings.GetOr(map[])))))
    else if action == "exportData" then (Exported(ExportBundle(st, now, version)), st)
    else if action == "showNotification" then (Ok, st)
    else (Failed(Scraper.UnknownAction), st)
  }
}
