/**
  The options page's rules (options.js): the category manager, the display
  names of categories, the data-maintenance buttons (clean duplicates, clear
  old data, import), setting updates, and the counters it shows.

  Dialogs (`confirm`, `prompt`) become parameters carrying the user's answer.
 */
module Options {
  import opened Wrappers
  import opened Text
  import opened Records
  import Cleanup
  import Background

  /** No id occurs twice. */
  predicate Distinct(xs: seq<String>) {
    forall i, j :: 0 <= i < j < |xs| ==> xs[i] != xs[j]
  }

  /** Every GPT with a category uses one from the list. */
  predicate Covered(categories: seq<String>, gpts: seq<Gpt>) {
    forall i :: 0 <= i < |gpts| && gpts[i].category.Some? ==> gpts[i].category.value in categories
  }

  // ---------------------------------------------------------------------
  // Category ids
  // ---------------------------------------------------------------------

  /** `name.toLowerCase().replace(/\s+/g, '-')`. */
  function CategoryId(name: String): (id: String)
    ensures |id| <= |name|
    ensures |id| == 0 <==> |name| == 0
    ensures forall i :: 0 <= i < |id| ==> !IsSpace(id[i]) && !HasSmallForm(id[i])
  {
    var lowered := Lower(name);
    var id := ReplaceSpaceRuns(lowered, '-');
    LoweredHasNoCapitals(name);
    DashesKeep(lowered, id, (c: char) => !HasSmallForm(c));
    id
  }

  lemma LoweredHasNoCapitals(s: String)
    ensures forall j :: 0 <= j < |Lower(s)| ==> !HasSmallForm(Lower(s)[j])
  {
  }

  /** A character property of the input that the dash also has holds of
      every character after collapsing whitespace runs to dashes. */
  lemma DashesKeep(s: String, r: String, p: char -> bool)
    requires r == ReplaceSpaceRuns(s, '-')
    requires p('-') && forall j :: 0 <= j < |s| ==> p(s[j])
    ensures forall i :: 0 <= i < |r| ==> p(r[i])
  {
    forall i | 0 <= i < |r|
      ensures p(r[i])
    {
      if r[i] != '-' {
        var j :| 0 <= j < |s| && s[j] == r[i];
      }
    }
  }

  /** An id maps to itself: ids are fixpoints of the derivation. */
  lemma CategoryIdIdempotent(name: String)
    ensures CategoryId(CategoryId(name)) == CategoryId(name)
  {
    var id := CategoryId(name);
    var lowered := Lower(name);
    LowerIsIdempotent(name);
    DashesKeep(lowered, id, (c: char) => LowerChar(c) == c);
    assert Lower(id) == id;
    ReplaceSpaceRunsNoSpace(id, '-');
  }

  lemma LowerIsIdempotent(s: String)
    ensures forall j :: 0 <= j < |Lower(s)| ==> LowerChar(Lower(s)[j]) == Lower(s)[j]
  {
    forall j | 0 <= j < |Lower(s)|
      ensures LowerChar(Lower(s)[j]) == Lower(s)[j]
    {
      LowerCharIdempotent(s[j]);
    }
  }

  /** A string without whitespace or capitals is its own id. */
  lemma CategoryIdOfId(s: String)
    requires forall i :: 0 <= i < |s| ==> !IsSpace(s[i]) && LowerChar(s[i]) == s[i]
    ensures CategoryId(s) == s
  {
    assert Lower(s) == s;
    ReplaceSpaceRunsNoSpace(s, '-');
  }

  // ---------------------------------------------------------------------
  // addCategory
  // ---------------------------------------------------------------------

  /** `addCategory`: append the id unless it is already listed. */
  function AddCategory(categories: seq<String>, name: String): (r: seq<String>)
    ensures CategoryId(name) in r
    ensures forall c :: c in r <==> c in categories || c == CategoryId(name)
    ensures |r| == |categories| + (if CategoryId(name) in categories then 0 else 1)
    ensures r[..|categories|] == categories
    ensures Distinct(categories) ==> Distinct(r)
  {
    var id := CategoryId(name);
    if id in categories then categories
    else
      var r := categories + [id];
      assert r[..|categories|] == categories;
      r
  }

  /** Adding the same name twice adds it once; so does retyping the id of a
      category just added. */
  lemma AddCategoryIdempotent(categories: seq<String>, name: String)
    ensures AddCategory(AddCategory(categories, name), name) == AddCategory(categories, name)
    ensures AddCategory(AddCategory(categories, name), CategoryId(name)) == AddCategory(categories, name)
  {
    CategoryIdIdempotent(name);
  }

  /** The "add" button: the input is trimmed and ignored when blank. */
  function AddCategoryFromInput(categories: seq<String>, input: String): (r: seq<String>)
    ensures IsBlank(input) ==> r == categories
    ensures !IsBlank(input) ==> r == AddCategory(categories, Trim(input))
  {
    var name := Trim(input);
    if |name| > 0 then AddCategory(categories, name) else categories
  }

  // ---------------------------------------------------------------------
  // Reassigning GPTs
  // ---------------------------------------------------------------------

  /** `gpts.map(gpt => gpt.category === from ? { ...gpt, category: to } : gpt)`. */
  function Reassign(gpts: seq<Gpt>, from: String, to: String): (r: seq<Gpt>)
    ensures |r| == |gpts|
    ensures forall i :: 0 <= i < |gpts| ==> r[i].(category := gpts[i].category) == gpts[i]
    ensures forall i :: 0 <= i < |gpts| && gpts[i].category == Some(from) ==> r[i].category == Some(to)
    ensures forall i :: 0 <= i < |gpts| && gpts[i].category != Some(from) ==> r[i] == gpts[i]
  {
    seq(|gpts|, i requires 0 <= i < |gpts| =>
      if gpts[i].category == Some(from) then gpts[i].(category := Some(to)) else gpts[i])
  }

  // ---------------------------------------------------------------------
  // deleteCategory
  // ---------------------------------------------------------------------

  const OtherCategory: String := "other"

  function NotEqual(x: String): String -> bool {
    c => c != x
  }

  /** `deleteCategory`, after the confirmation dialog: the id leaves the list
      (every occurrence) and its GPTs move to "other". */
  function DeleteCategory(categories: seq<String>, gpts: seq<Gpt>, category: String, confirmed: bool)
    : (r: (seq<String>, seq<Gpt>))
    ensures !confirmed ==> r == (categories, gpts)
    ensures confirmed ==> forall c :: c in r.0 <==> c in categories && c != category
    ensures confirmed ==> |r.0| == CountWhere(categories, NotEqual(category))
    ensures confirmed ==> r.0 == Filter(categories, NotEqual(category))
    ensures confirmed ==> r.1 == Reassign(gpts, category, OtherCategory)
  {
    if confirmed then
      var kept := Filter(categories, NotEqual(category));
      forall c | c in categories && c != category
        ensures c in kept
      {
        FilterKeeps(categories, NotEqual(category), c);
      }
      (kept, Reassign(gpts, category, OtherCategory))
    else
      (categories, gpts)
  }

  /** Deleting a category other than "other" keeps every GPT's category in
      the list (when "other" is in it), and keeps ids distinct. */
  lemma DeleteCategoryKeepsCovered(categories: seq<String>, gpts: seq<Gpt>, category: String)
    requires Covered(categories, gpts) && OtherCategory in categories && category != OtherCategory
    ensures Covered(DeleteCategory(categories, gpts, category, true).0, DeleteCategory(categories, gpts, category, true).1)
  {
  }

  /** Deleting "other" itself leaves its GPTs pointing at an id that is no
      longer listed. */
  lemma DeleteOtherOrphansItsGpts(categories: seq<String>, gpts: seq<Gpt>, i: int)
    requires 0 <= i < |gpts| && gpts[i].category == Some(OtherCategory)
    ensures !Covered(DeleteCategory(categories, gpts, OtherCategory, true).0, DeleteCategory(categories, gpts, OtherCategory, true).1)
  {
    var r := DeleteCategory(categories, gpts, OtherCategory, true);
    assert r.1[i].category == Some(OtherCategory);
  }

  // ---------------------------------------------------------------------
  // editCategory
  // ---------------------------------------------------------------------

  datatype EditOutcome = Cancelled | AlreadyExists | Renamed(categories: seq<String>, gpts: seq<Gpt>)

  /** `categories.map(cat => cat === category ? newId : cat)`. */
  function RenameIn(categories: seq<String>, category: String, newId: String): (r: seq<String>)
    ensures |r| == |categories|
    ensures forall i :: 0 <= i < |categories| ==> r[i] == if categories[i] == category then newId else categories[i]
  {
    seq(|categories|, i requires 0 <= i < |categories| =>
      if categories[i] == category then newId else categories[i])
  }

  /** Renaming to a fresh id keeps the ids distinct and moves the GPTs along. */
  lemma RenameKeepsInvariants(categories: seq<String>, gpts: seq<Gpt>, category: String, newId: String)
    requires newId !in categories
    requires Distinct(categories) && Covered(categories, gpts)
    ensures Distinct(RenameIn(categories, category, newId))
    ensures Covered(RenameIn(categories, category, newId), Reassign(gpts, category, newId))
    ensures category in categories ==> newId in RenameIn(categories, category, newId) && category !in RenameIn(categories, category, newId)
  {
    var r := RenameIn(categories, category, newId);
    var moved := Reassign(gpts, category, newId);
    forall i | 0 <= i < |moved| && moved[i].category.Some?
      ensures moved[i].category.value in r
    {
      if gpts[i].category == Some(category) {
        var k :| 0 <= k < |categories| && categories[k] == category;
        assert r[k] == newId;
      } else {
        var k :| 0 <= k < |categories| && categories[k] == gpts[i].category.value;
        assert r[k] == categories[k];
      }
    }
    if category in categories {
      var k :| 0 <= k < |categories| && categories[k] == category;
      assert r[k] == newId;
    }
  }

  /** The id an edit produces, once the typed name is trimmed, as the "add"
      button does. */
  function EditedId(newName: String): (id: String)
    ensures |Trim(newName)| > 0 ==> |id| > 0 && id[0] == LowerChar(Trim(newName)[0])
    ensures forall i :: 0 <= i < |id| ==> !IsSpace(id[i])
  {
    CategoryId(Trim(newName))
  }

  /** The id the source computes: the typed name is not trimmed. */
  function EditedIdAsWritten(newName: String): (id: String)
    ensures |newName| > 0 ==> |id| > 0
    ensures |newName| > 0 && IsSpace(newName[0]) ==> id[0] == '-'
  {
    CategoryId(newName)
  }

  /** The decision shared by both versions of `editCategory`. */
  function EditTo(categories: seq<String>, gpts: seq<Gpt>, category: String, newId: String): (r: EditOutcome)
    ensures r != Cancelled
    ensures r == AlreadyExists <==> newId in categories
    ensures r.Renamed? ==> r.categories == RenameIn(categories, category, newId)
    ensures r.Renamed? ==> r.gpts == Reassign(gpts, category, newId)
  {
    if newId in categories then AlreadyExists
    else Renamed(RenameIn(categories, category, newId), Reassign(gpts, category, newId))
  }

  /** `editCategory`, with the typed name trimmed before it becomes an id. */
  function EditCategory(categories: seq<String>, gpts: seq<Gpt>, category: String, newName: Option<String>)
    : (r: EditOutcome)
    ensures r == Cancelled <==> newName.None? || IsBlank(newName.value)
    ensures r != Cancelled ==> r == EditTo(categories, gpts, category, EditedId(newName.value))
    ensures r.Renamed? ==> |r.categories| == |categories|
  {
    match newName
    case None => Cancelled
    case Some(n) => if IsBlank(n) then Cancelled else EditTo(categories, gpts, category, EditedId(n))
  }

  /** `editCategory` as the source has it. */
  function EditCategoryAsWritten(categories: seq<String>, gpts: seq<Gpt>, category: String, newName: Option<String>)
    : (r: EditOutcome)
    ensures r == Cancelled <==> newName.None? || IsBlank(newName.value)
    ensures r != Cancelled ==> r == EditTo(categories, gpts, category, EditedIdAsWritten(newName.value))
  {
    match newName
    case None => Cancelled
    case Some(n) => if IsBlank(n) then Cancelled else EditTo(categories, gpts, category, EditedIdAsWritten(n))
  }

  /** An accepted edit keeps the ids distinct and every GPT's category listed. */
  lemma EditCategoryKeepsInvariants(categories: seq<String>, gpts: seq<Gpt>, category: String, newName: Option<String>)
    requires Distinct(categories) && Covered(categories, gpts)
    requires EditCategory(categories, gpts, category, newName).Renamed?
    ensures Distinct(EditCategory(categories, gpts, category, newName).categories)
    ensures Covered(EditCategory(categories, gpts, category, newName).categories, EditCategory(categories, gpts, category, newName).gpts)
  {
    RenameKeepsInvariants(categories, gpts, category, EditedId(newName.value));
  }

  /** Renaming to a name the "add" button would turn into an existing id is
      refused, and otherwise the new id is the one that button would add. */
  lemma EditAgreesWithAdd(categories: seq<String>, gpts: seq<Gpt>, category: String, input: String)
    requires !IsBlank(input)
    ensures EditCategory(categories, gpts, category, Some(input)) == AlreadyExists
      <==> AddCategoryFromInput(categories, input) == categories
    ensures EditCategory(categories, gpts, category, Some(input)).Renamed? ==>
      AddCategoryFromInput(categories, input) == categories + [EditedId(input)]
  {
  }

  /** Surrounding whitespace does not matter to the trimmed id. */
  lemma EditedIdIgnoresSurroundingSpace(newName: String)
    ensures EditedId(Trim(newName)) == EditedId(newName)
  {
    TrimIdempotent(newName);
  }

  /** As written, a leading space becomes a leading '-': renaming to " x"
      gives "-x", where the "add" button would give "x". */
  lemma EditAsWrittenKeepsLeadingSpace(x: char)
    requires !IsSpace(x) && LowerChar(x) == x
    ensures EditedIdAsWritten([' ', x]) == ['-', x]
    ensures EditedId([' ', x]) == [x]
    ensures EditCategoryAsWritten([OtherCategory], [], OtherCategory, Some([' ', x])) == Renamed([['-', x]], [])
    ensures EditCategory([OtherCategory], [], OtherCategory, Some([' ', x])) == Renamed([[x]], [])
  {
    var n := [' ', x];
    SpacedIds(x);
    assert !IsBlank(n) by { BlankIffAllSpace(n); }
    assert ['-', x] != OtherCategory && [x] != OtherCategory;
    assert RenameIn([OtherCategory], OtherCategory, ['-', x]) == [['-', x]];
    assert RenameIn([OtherCategory], OtherCategory, [x]) == [[x]];
  }

  lemma SpacedIds(x: char)
    requires !IsSpace(x) && LowerChar(x) == x
    ensures EditedIdAsWritten([' ', x]) == ['-', x]
    ensures EditedId([' ', x]) == [x]
  {
    SpacedIdAsWritten(x);
    SpacedIdTrimmed(x);
  }

  lemma SpacedIdAsWritten(x: char)
    requires !IsSpace(x) && LowerChar(x) == x
    ensures CategoryId([' ', x]) == ['-', x]
  {
    var n := [' ', x];
    assert Lower(n) == n;
    assert TrimStart(n) == [x] by {
      assert n[1..] == [x];
    }
    assert ReplaceSpaceRuns([x], '-') == [x] by { ReplaceSpaceRunsNoSpace([x], '-'); }
  }

  lemma SpacedIdTrimmed(x: char)
    requires !IsSpace(x) && LowerChar(x) == x
    ensures CategoryId(Trim([' ', x])) == [x]
  {
    var n := [' ', x];
    assert TrimStart(n) == [x] by {
      assert n[1..] == [x];
    }
    assert TrimEnd([x]) == [x];
    CategoryIdOfId([x]);
  }

  // ---------------------------------------------------------------------
  // getCategoryDisplayName
  // ---------------------------------------------------------------------

  /** The French labels of the seven built-in categories. */
  const BuiltinLabels: map<String, String> := map[
    "writing" := "Écriture",
    "coding" := "Programmation",
    "analysis" := "Analyse",
    "creative" := "Créatif",
    "business" := "Business",
    "education" := "Éducation",
    "other" := "Autre"]

  /** The label of a built-in id, any other id as it is: the lookup only
      considers the table's own entries. */
  function CategoryDisplayName(category: String): (name: String)
    ensures category in BuiltinLabels ==> name == BuiltinLabels[category]
    ensures category !in BuiltinLabels ==> name == category
  {
    if category in BuiltinLabels then BuiltinLabels[category] else category
  }

  /** The table covers exactly the default categories, and a label never
      coincides with an id, so a displayed name tells built-in and custom
      categories apart. */
  lemma DisplayNamesAreFaithful(category: String)
    ensures BuiltinLabels.Keys == set c | c in DefaultCategories
    ensures CategoryDisplayName(category) == category <==> category !in BuiltinLabels
  {
    BuiltinKeys();
  }

  lemma BuiltinKeys()
    ensures BuiltinLabels.Keys == set c | c in DefaultCategories
  {
    forall c | c in DefaultCategories ensures c in BuiltinLabels {}
  }

  lemma LabelsAreDistinct()
    ensures forall a, b :: a in BuiltinLabels && b in BuiltinLabels && a != b ==> BuiltinLabels[a] != BuiltinLabels[b]
  {
  }

  /** What `names[category] || category` yields: a string, or an inherited
      member (a function, or for "__proto__" the prototype object). */
  datatype Shown = Label(text: String) | InheritedMember(key: String)

  /** `getCategoryDisplayName` as written: the object literal's lookup also
      finds inherited members, which are truthy. */
  function CategoryDisplayNameAsWritten(category: String): (r: Shown)
    ensures category in BuiltinLabels ==> r == Label(BuiltinLabels[category])
    ensures category !in BuiltinLabels && category !in ObjectPrototypeKeys ==> r == Label(category)
  {
    if category in BuiltinLabels then Label(BuiltinLabels[category])
    else if category in ObjectPrototypeKeys then InheritedMember(category)
    else Label(category)
  }

  /** Typing "constructor" in the "add" field creates the id "constructor",
      whose displayed name is then `Object` itself instead of the id. */
  lemma ConstructorCategoryShowsInheritedMember(categories: seq<String>)
    ensures "constructor" in AddCategoryFromInput(categories, "constructor")
    ensures CategoryDisplayNameAsWritten("constructor") == InheritedMember("constructor")
    ensures CategoryDisplayName("constructor") == "constructor"
  {
    var s := "constructor";
    assert s !in BuiltinLabels by {
      assert |s| == 11;
      assert forall k :: k in BuiltinLabels ==> |k| != 11;
    }
    assert s in ObjectPrototypeKeys;
    assert forall i :: 0 <= i < |s| ==> IsAsciiLower(s[i]);
    CategoryIdOfId(s);
    assert !IsSpace(s[0]) && !IsSpace(s[|s| - 1]);
    TrimFixpoint(s);
  }

  // ---------------------------------------------------------------------
  // cleanDuplicates
  // ---------------------------------------------------------------------

  datatype CleanOutcome =
    | NoDuplicates
    | Cleaned(gpts: seq<Gpt>, conversations: seq<Conversation>, removedGpts: nat, removedConversations: nat)

  /** `cleanDuplicates`: the url-or-id rule on both lists, and how many
      records each lost. */
  function CleanDuplicates(gpts: seq<Gpt>, convs: seq<Conversation>): (r: CleanOutcome)
    ensures r.NoDuplicates? <==> Cleanup.UniqueGpts(gpts) == gpts && Cleanup.UniqueConversations(convs) == convs
    ensures r.Cleaned? ==> r.gpts == Cleanup.UniqueGpts(gpts) && r.conversations == Cleanup.UniqueConversations(convs)
    ensures r.Cleaned? ==> r.removedGpts + |r.gpts| == |gpts| && r.removedConversations + |r.conversations| == |convs|
    ensures r.Cleaned? ==> r.removedGpts + r.removedConversations > 0
  {
    var uniqueGpts := Cleanup.UniqueGpts(gpts);
    var uniqueConvs := Cleanup.UniqueConversations(convs);
    Cleanup.SameLengthMeansNothingRemoved(gpts, convs);
    if |uniqueGpts| != |gpts| || |uniqueConvs| != |convs| then
      Cleaned(uniqueGpts, uniqueConvs, |gpts| - |uniqueGpts|, |convs| - |uniqueConvs|)
    else
      NoDuplicates
  }

  /** The options page and the service worker clean the same way: same lists,
      and each writes storage exactly when the other does. */
  lemma CleanDuplicatesAgreesWithBackground(st: Background.Store)
    ensures var r := CleanDuplicates(Background.GptsOf(st), Background.ConversationsOf(st));
      && (r.NoDuplicates? <==> Background.RemoveDuplicates(st).None?)
      && (r.Cleaned? ==>
            && Background.GptsOf(Background.RemoveDuplicates(st).value) == r.gpts
            && Background.ConversationsOf(Background.RemoveDuplicates(st).value) == r.conversations)
  {
  }

  // ---------------------------------------------------------------------
  // clearOldData
  // ---------------------------------------------------------------------

  const RetentionDays: int := 30

  /** `new Date(conv.updatedAt) > thirtyDaysAgo`. */
  function UpdatedSince(threshold: int): Conversation -> bool {
    (c: Conversation) => c.updatedAt > threshold
  }

  datatype PruneOutcome = NotConfirmed | NothingOld | Pruned(conversations: seq<Conversation>, removedCount: nat)

  /** `clearOldData`: keep the conversations updated within the last 30 days
      (strictly); write only when something goes. */
  function ClearOldData(convs: seq<Conversation>, now: int, confirmed: bool): (r: PruneOutcome)
    ensures r.NotConfirmed? <==> !confirmed
    ensures r.NothingOld? <==> confirmed && forall c :: c in convs ==> c.updatedAt > now - RetentionDays * DayMs
    ensures r.Pruned? ==> forall c :: c in r.conversations <==> c in convs && c.updatedAt > now - RetentionDays * DayMs
    ensures r.Pruned? ==> r.removedCount == |convs| - |r.conversations| > 0
    ensures r.Pruned? ==> r.removedCount == CountWhere(convs, Not(UpdatedSince(now - RetentionDays * DayMs)))
    ensures r.Pruned? ==> r.conversations == Filter(convs, UpdatedSince(now - RetentionDays * DayMs))
  {
    if !confirmed then NotConfirmed
    else
      var p := UpdatedSince(now - RetentionDays * DayMs);
      var recent := Filter(convs, p);
      CountPartition(convs, p);
      forall c | c in convs && p(c)
        ensures c in recent
      {
        FilterKeeps(convs, p, c);
      }
      if |convs| - |recent| > 0 then
        assert !forall c :: c in convs ==> p(c) by {
          if forall c :: c in convs ==> p(c) {
            FilterAll(convs, p);
          }
        }
        Pruned(recent, |convs| - |recent|)
      else
        assert forall c :: c in convs ==> p(c) by {
          forall c | c in convs
            ensures p(c)
          {
            if !p(c) {
              FilterKeeps(convs, Not(p), c);
            }
          }
        }
        NothingOld
  }

  /** The boundary is strict: a conversation last updated exactly thirty days
      ago is removed. */
  lemma ThirtyDaysOldIsRemoved(c: Conversation, now: int)
    requires c.updatedAt == now - RetentionDays * DayMs
    ensures ClearOldData([c], now, true) == Pruned([], 1)
  {
    var p := UpdatedSince(now - RetentionDays * DayMs);
    assert [c][..0] == [];
    assert Filter([c], p) == [];
  }

  // ---------------------------------------------------------------------
  // importData
  // ---------------------------------------------------------------------

  /** What the options page holds. */
  datatype OptionsData = OptionsData(settings: Obj, gpts: seq<Gpt>, conversations: seq<Conversation>, stats: Obj)

  /** The parts of an imported file the page reads; a missing or falsy part
      is `None` (an empty list is truthy, hence `Some([])`). */
  datatype ImportFile = ImportFile(settings: Option<Obj>, gpts: Option<seq<Gpt>>, conversations: Option<seq<Conversation>>)

  /** `importData`, after the file was parsed and the user confirmed. */
  function ImportData(d: OptionsData, f: ImportFile, confirmed: bool): (r: OptionsData)
    ensures !confirmed ==> r == d
    ensures r.stats == d.stats
    ensures confirmed && f.settings.Some? ==> r.settings.Keys == d.settings.Keys + f.settings.value.Keys
    ensures confirmed && f.settings.Some? ==> forall k :: k in f.settings.value ==> r.settings[k] == f.settings.value[k]
    ensures confirmed && f.settings.Some? ==>
      forall k :: k in d.settings && k !in f.settings.value ==> r.settings[k] == d.settings[k]
    ensures f.settings.None? ==> r.settings == d.settings
    ensures confirmed && f.gpts.Some? ==> r.gpts == f.gpts.value
    ensures f.gpts.None? ==> r.gpts == d.gpts
    ensures confirmed && f.conversations.Some? ==> r.conversations == f.conversations.value
    ensures f.conversations.None? ==> r.conversations == d.conversations
  {
    if !confirmed then d
    else
      OptionsData(
        match f.settings case Some(s) => Overlay(d.settings, s) case None => d.settings,
        f.gpts.GetOr(d.gpts),
        f.conversations.GetOr(d.conversations),
        d.stats)
  }

  /** Importing the same file twice is importing it once. */
  lemma ImportDataIdempotent(d: OptionsData, f: ImportFile)
    ensures ImportData(ImportData(d, f, true), f, true) == ImportData(d, f, true)
  {
    if f.settings.Some? {
      var once := Overlay(d.settings, f.settings.value);
      assert Overlay(once, f.settings.value) == once;
    }
  }

  // ---------------------------------------------------------------------
  // updateSetting
  // ---------------------------------------------------------------------

  /** The settings the service worker cares about. */
  const BackgroundSettingKeys: seq<String> := ["autoSync", "syncInterval", "notifications"]

  /** The outcome of `updateSetting`: the new settings, whether the theme is
      also stored on its own, and whether the service worker is told. */
  datatype SettingUpdate = SettingUpdate(settings: Obj, mirrorsTheme: bool, notifiesBackground: bool)

  /** `updateSetting(key, value)`. */
  function UpdateSetting(settings: Obj, key: String, value: Value): (r: SettingUpdate)
    ensures r.settings.Keys == settings.Keys + {key}
    ensures r.settings[key] == value
    ensures forall k :: k in settings && k != key ==> r.settings[k] == settings[k]
    ensures r.mirrorsTheme <==> key == "theme"
    ensures r.notifiesBackground <==> key in BackgroundSettingKeys
  {
    SettingUpdate(settings[key := value], key == "theme", key in BackgroundSettingKeys)
  }

  /** After the notification reaches the service worker, its settings agree
      with the page's on every key the page holds. */
  lemma NotifiedSettingsReachBackground(settings: Obj, key: String, value: Value, st: Background.Store, now: int, version: String)
    requires UpdateSetting(settings, key, value).notifiesBackground
    ensures var page := UpdateSetting(settings, key, value).settings;
      var bg := Background.HandleBackgroundMessage("updateSettings", Some(page), st, now, version).1;
      && bg.settings.Some?
      && (forall k :: k in page ==> k in bg.settings.value && bg.settings.value[k] == page[k])
      && Lookup(bg.settings.value, key) == value
  {
  }

  // ---------------------------------------------------------------------
  // Counters: updateStats and loadCategories
  // ---------------------------------------------------------------------

  const ActiveDays: int := 7

  function IsFavorite(g: Gpt): bool {
    g.favorite
  }

  function InCategory(category: String): Gpt -> bool {
    (g: Gpt) => g.category == Some(category)
  }

  datatype Counters = Counters(totalSyncs: int, favoriteGpts: nat, activeConversations: nat)

  /** The counters of the statistics section. */
  function StatsCounters(stats: Obj, gpts: seq<Gpt>, convs: seq<Conversation>, now: int): (r: Counters)
    ensures r.totalSyncs == CounterOr0(stats, "totalSyncs")
    ensures r.favoriteGpts == |Filter(gpts, IsFavorite)| <= |gpts|
    ensures r.activeConversations == |Filter(convs, UpdatedSince(now - ActiveDays * DayMs))| <= |convs|
  {
    Counters(CounterOr0(stats, "totalSyncs"),
             CountWhere(gpts, IsFavorite),
             CountWhere(convs, UpdatedSince(now - ActiveDays * DayMs)))
  }

  /** A conversation active in the last week survives "clear old data": the
      active count never exceeds what a clean-up keeps. */
  lemma ActiveConversationsSurvivePruning(stats: Obj, gpts: seq<Gpt>, convs: seq<Conversation>, now: int)
    ensures StatsCounters(stats, gpts, convs, now).activeConversations
      <= CountWhere(convs, UpdatedSince(now - RetentionDays * DayMs))
  {
    CountWhereMonotone(convs, UpdatedSince(now - ActiveDays * DayMs), UpdatedSince(now - RetentionDays * DayMs));
  }

  /** The count next to a category in the list: `gpts.filter(gpt => gpt.category === category).length`. */
  function CategoryCount(gpts: seq<Gpt>, category: String): (n: nat)
    ensures n <= |gpts|
  {
    CountWhere(gpts, InCategory(category))
  }

  /** The page's count agrees with the service worker's breakdown, except for
      the id "undefined", under which the breakdown also files GPTs without
      a category. */
  lemma {:induction false} CategoryCountMatchesBreakdown(gpts: seq<Gpt>, category: String)
    requires category != "undefined"
    ensures CategoryCount(gpts, category) == Background.Get(Background.CategoryBreakdown(gpts), category)
    decreases |gpts|
  {
    if |gpts| > 0 {
      var n := |gpts| - 1;
      CategoryCountMatchesBreakdown(gpts[..n], category);
      assert InCategory(category)(gpts[n]) <==> Background.BreakdownKey(gpts[n]) == category;
    }
  }

  /** Against the breakdown object as written, the per-category counter
      agrees for every category the object does not inherit; under an
      inherited name other than "__proto__" the object holds text. */
  lemma CategoryCountMatchesBreakdownAsWritten(gpts: seq<Gpt>, category: String)
    requires category != "undefined"
    ensures category !in ObjectPrototypeKeys ==>
      && (category in Background.CategoryBreakdownAsWritten(gpts) <==> CategoryCount(gpts, category) > 0)
      && (category in Background.CategoryBreakdownAsWritten(gpts) ==>
            Background.CategoryBreakdownAsWritten(gpts)[category] == Background.Count(CategoryCount(gpts, category)))
    ensures category in ObjectPrototypeKeys && category != "__proto__" && CategoryCount(gpts, category) > 0 ==>
      && category in Background.CategoryBreakdownAsWritten(gpts)
      && Background.CategoryBreakdownAsWritten(gpts)[category] == Background.Garbled(category, CategoryCount(gpts, category))
  {
    CategoryCountMatchesBreakdown(gpts, category);
    Background.BreakdownAsWrittenEntry(gpts, category);
    Background.GetPositiveIffKey(Background.CategoryBreakdown(gpts));
  }
}
