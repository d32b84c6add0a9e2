# ChatGPT Sync Manager — a Dafny model of the extension's rules

ChatGPT Sync Manager is a browser extension with four scripts:

- **content script** (`content.js`): scrapes the GPTs and conversations listed on a ChatGPT page.
- **service worker** (`background.js`): keeps them in local storage, migrates old data, runs the periodic clean-up and the automatic sync, and answers messages.
- **options page** (`options.js`): manages categories, settings, import and clean-up.
- **popup** (`popup.js`): lists, filters, sorts and edits the stored records.

This project models the logic of those four scripts as pure Dafny functions and proves what they guarantee. The DOM, the `chrome.*` APIs, the clock and the dialogs are replaced by parameters:

- a page is a list of scraped elements;
- `now` is a number of milliseconds;
- a `prompt` answer is an `Option<String>`;
- a `confirm` answer is a `bool`.

Modules, one concept each:

| module | file | what it holds |
|---|---|---|
| `Wrappers` | wrappers.dfy | `Option`, the stand-in for `undefined`/`null` |
| `Text` | text.dfy | JavaScript `\s`, `toLowerCase`, `trim`, `includes`, `split`, `replace(/\s+/g, …)`, `toString` |
| `Records` | records.dfy | the stored GPT and conversation records, loosely typed settings/statistics objects, `filter` and counting |
| `Dedup` | dedup.dfy | first-occurrence-wins deduplication, its `findIndex` formulation and the scraper's seen-set loop |
| `Sorting` | sorting.dfy | the stable descending sort the popup and the statistics use (`Array.prototype.sort` is stable) |
| `Scraper` | scraper.dfy | the content script: `cleanText`, `filterFallbackName`, `categorizeGPT`, id extraction, message count, element parsing, deduplication, message dispatch |
| `Versions` | versions.dfy | `compareVersions` |
| `Cleanup` | cleanup.dfy | the "same url or same id" duplicate filter shared by the service worker and the options page |
| `Background` | background.dfy | the service worker |
| `Options` | options.dfy | the options page |
| `Popup` | popup.dfy | the popup |

Where the code disagrees with its own comments or with what its UI promises, the model follows the code. Four such places are listed under "## Findings". Two more are behaviours of the code as written, and the model keeps them:

- the service worker's `syncData` message calls a `performSync` method that does not exist, so it always answers with an error (`Background.HandleBackgroundMessage`);
- the content script has no `getCurrentPageTitle` case, so a GPT added from the context menu always gets the default name (`Background.ContextMenuNameIsAlwaysDefault`).

## Model

| member | source | states |
|---|---|---|
| Records.Overlay | background.js:505-509 | `{ ...base, ...over }`: the keys of both objects; `over` wins on shared keys; every other key of `base` keeps its value |
| Records.Filter | options.js:394-399 | `filter` keeps only elements satisfying the test, draws them from the input, and keeps as many as the test counts |
| Records.CountPartition | options.js:394-399 | a test and its complement count every element exactly once |
| Records.FilterKeeps | popup.js:408-416 | every element that passes the test survives the filter |
| Records.CountWhereMonotone | options.js:396-399 | a weaker test counts at least as many elements |
| Records.FilterAll | popup.js:408-416 | when every element passes, the filter returns the list unchanged |
| Records.FilterSingle | options.js:485 | a one-element list keeps its element exactly when it passes the test |
| Records.FilterAppend | options.js:485 | filtering distributes over concatenation; with the one-element and empty cases this fixes the result: the passing elements in their order, each as often as it occurs |
| Records.Collect | content.js:103-110 | the loop that pushes every element's parse result when there is one: no more results than elements, and each result is the parse of some element |
| Records.CollectSingle | content.js:105-108 | one element yields its parse result, or nothing when it does not parse |
| Records.CollectAppend | content.js:103-110 | the loop distributes over concatenation; with the one-element case this fixes the result: one record per parsed element, in element order |
| Text.Trim | options.js:204 | `trim` leaves no leading or trailing JavaScript whitespace and only removes whitespace |
| Text.TrimIdempotent | options.js:204 | trimming twice is trimming once |
| Text.BlankIffAllSpace | options.js:205 | a trimmed string is empty exactly when every character is whitespace, which is what `if (name.trim())` tests |
| Text.ReplaceSpaceRuns | options.js:470 | `replace(/\s+/g, rep)` leaves no whitespace when `rep` is not whitespace, and only rewrites whitespace runs |
| Text.ReplaceSpaceRunsFixpoint | content.js:284-287 | collapsing whitespace leaves a single-spaced string alone |
| Text.Split | background.js:116 | `split('.')` yields at least one part, and no part contains the separator |
| Text.JoinSplit | background.js:116 | splitting loses nothing: joining the parts with the separator gives the input back |
| Text.NatToString | background.js:232 | `n.toString()` is the shortest decimal numeral whose value is `n` |
| Text.LowerChar | options.js:470 | `toLowerCase` on one character: each capital of ASCII, Latin-1 and Latin Extended-A becomes its small letter (Ÿ becomes ÿ), every other character is unchanged, and the result is never such a capital |
| Text.LowerCharIdempotent | options.js:470 | lowering a lowered character changes nothing |
| Text.Lower | options.js:470 | `toLowerCase` maps character by character and keeps the length |
| Text.UpperChar | popup.js:52 | `toUpperCase` on one character: each small letter of ASCII, Latin-1 and Latin Extended-A becomes its capital ("ß" becomes "SS", "ŉ" becomes "ʼN", "ı" becomes "I", "ſ" becomes "S"), and a character without a capital form is unchanged |
| Text.UpperOfLower | popup.js:52 | upper-casing the small letter of a capital gives the capital back |
| Text.ReplaceFirst | background.js:356 | `replace` with a string pattern replaces the first occurrence only, and leaves a string without the pattern unchanged |
| Dedup.KeptIndices | background.js:428-435 | the surviving positions are increasing, each is first of its kind, and every first-of-its-kind position survives |
| Dedup.KeepFirst | background.js:428-435 | the result lists the input's elements at the surviving positions, in order |
| Dedup.KeepFirstProperties | content.js:447-457 | the result is drawn from the input, starts with the input's first element and holds no two duplicates |
| Dedup.KeepFirstFixpoint | background.js:428-437 | deduplication leaves a list unchanged iff it holds no duplicate |
| Dedup.KeepFirstIdempotent | background.js:428-435 | deduplicating twice is deduplicating once |
| Dedup.SameLengthMeansUnchanged | background.js:437 | equal lengths before and after mean nothing changed, so a length test decides whether to write back |
| Dedup.FindIndex | background.js:428-435 | `findIndex` gives the first position passing the test, or -1 iff none passes |
| Dedup.FindIndexAgrees | background.js:428-435 | for a reflexive relation, `i === findIndex(same as xs[i])` iff nothing before `i` is the same |
| Dedup.KeepFirstCoversKeys | content.js:447-457 | under deduplication by key no key is lost: every input key is the key of a kept element |
| Dedup.DedupBySeenKeys | content.js:447-457 | the one-pass loop with a set of seen keys computes first-occurrence-wins deduplication |
| Sorting.Insert | popup.js:419-430 | inserting into a list adds exactly that element (a permutation) |
| Sorting.InsertSorted | popup.js:419-430 | inserting into a descending list keeps it descending |
| Sorting.SortByKeyDesc | popup.js:425-426 | the sort returns a permutation of the input in descending key order |
| Sorting.SortStable | popup.js:419-430 | the sort is stable: for every key, the elements with that key keep their relative order |
| Sorting.FirstMaxIndex | background.js:483 | the chosen position holds a maximal key, and every earlier position has a smaller key |
| Sorting.SortHeadIsFirstMax | background.js:483 | the head of the stable sort is the first element with the maximal key |
| Versions.CompareFrom | background.js:119-127 | the comparison loop yields 0 iff the zero-padded lists agree from `i` on; -1 iff the first difference is smaller on the left; 1 iff it is smaller on the right |
| Versions.CompareVersions | background.js:115-128 | `compareVersions` is -1, 0 or 1, and is 0 exactly when the zero-padded component lists agree |
| Versions.CompareVersionsAntisymmetric | background.js:115-128 | swapping the arguments negates the result |
| Versions.CompareVersionsTransitive | background.js:115-128 | "at most" under `compareVersions` is transitive |
| Versions.CompareVersionsReflexive | background.js:115-128 | every version equals itself |
| Versions.TrailingZeroIsEqual | background.js:119-121 | appending ".0" does not change a version's place in the order |
| Versions.ComponentsAppend | background.js:116-117 | the components of `v + "." + w` are those of `v` followed by those of `w` |
| Versions.SplitAtSeparator | background.js:116 | splitting at a separator splits the two sides independently |
| Cleanup.UniqueGpts | background.js:428-430 | the cleaned GPT list is drawn from the input, keeps the first GPT, and no two kept GPTs share a url or an id |
| Cleanup.UniqueConversations | background.js:432-435 | the same three facts for conversations |
| Cleanup.UniqueGptsIsFindIndexFilter | options.js:611-649 | the filter keeps position `i` iff the `findIndex` test holds there, iff nothing earlier shares its url or id |
| Cleanup.UniqueConversationsIsFindIndexFilter | background.js:432-435 | the conversation filter keeps `i` iff nothing earlier shares its url or id |
| Cleanup.UniqueGptsIdempotent | background.js:428-430 | cleaning twice is cleaning once, and a list is left alone iff no two of its GPTs share a url or id |
| Cleanup.UniqueConversationsIdempotent | background.js:432-435 | cleaning conversations twice is cleaning once, and a list is left alone iff no two of its conversations share a url or id |
| Cleanup.SameLengthMeansNothingRemoved | background.js:437 | the service worker's length comparison is true exactly when the clean-up changed nothing |
| Cleanup.DroppedThroughDroppedRecord | background.js:428-430 | the relation is not transitive: a GPT can be dropped because it matches a GPT that is itself dropped |
| Scraper.KeepCleanChars | content.js:285 | removing characters outside letters, digits, whitespace and `-.,!?()` keeps only such characters and keeps clean strings whole |
| Scraper.CleanText | content.js:280-288 | `cleanText` returns at most 200 characters, returns "" for a missing or empty input, and never starts with whitespace |
| Scraper.Truncate | content.js:287 | `substring(0, n)` is a prefix of length at most `n`, and the whole string when it is short enough |
| Scraper.CleanTextShape | content.js:284-287 | every character of the result is clean, its whitespace is a plain space, and every non-space character comes from the input |
| Scraper.CleanTextFixpoint | content.js:280-288 | a trimmed, single-spaced, clean string of at most 200 characters is returned unchanged |
| Scraper.CleanTextKeepsAccents | tests/nameParsingTest.js:8 | "Café crème" comes back unchanged |
| Scraper.KeepCleanCharsAppend | content.js:285 | the character filter works piecewise over concatenation |
| Scraper.CleanTextCanLeaveDoubleSpace | content.js:284-287 | whitespace is collapsed before unclean characters are removed, so a letter, a space, an unclean character, a space and a letter come back with two adjacent spaces, which is not a clean form |
| Scraper.FilterFallbackName | content.js:290-296 | the result is "" or the trimmed text, and it is "" exactly for blank text, the day headings "today" and "hier" in any ASCII case, and text starting like a d/m date |
| Scraper.FilterFallbackNameToday | tests/nameParsingTest.js:4 | "Today" is ignored |
| Scraper.FilterFallbackNameHier | tests/nameParsingTest.js:5 | "Hier" is ignored |
| Scraper.FilterFallbackNameDate | tests/nameParsingTest.js:6 | "12/01/23" is ignored |
| Scraper.FilterFallbackNameKeepsName | tests/nameParsingTest.js:7 | "My GPT" is kept |
| Scraper.IsDayHeading | content.js:292 | the day headings "today" and "hier" in any ASCII case; no contract of its own, its meaning is stated through Scraper.FilterFallbackName and the four tests above |
| Scraper.FallbackName | content.js:208-210 | the name read from an element's text: its first line when that survives the filter, otherwise "GPT Sans Nom"; a kept name is never a day heading or date, and blank text always gives "GPT Sans Nom" |
| Scraper.TextOr | content.js:404-411 | `extractTextContent(...) \|\| fallback`: the found text when it is non-empty, otherwise the fallback, so a non-empty fallback always gives a non-empty text |
| Scraper.FirstMatchingCategory | content.js:310-314 | the scan stops at the first category whose pattern matches |
| Scraper.CategorizeGpt | content.js:298-317 | the category is a default one; it is "other" iff no pattern matches, and otherwise the first matching category in declaration order |
| Scraper.ExtractSegment | content.js:227-228 | the id is the segment after the first marker followed by a non-empty run of id characters; there is none iff no such match exists |
| Scraper.ExtractSegmentSkipsEmptyMatch | content.js:227-228 | a marker followed by nothing usable is skipped: "/g//g/abc" yields "abc" |
| Scraper.EstimateMessageCount | content.js:435-439 | the count is the number before the first "message(s)" word, or 1 when there is none |
| Scraper.ParseGpt | content.js:184-262 | an element becomes a GPT iff it has a link containing "/g/"; the record carries that url, the extracted or fallback id, cleaned texts within 200 characters, a default category, no use yet, and `now` as its dates |
| Scraper.ParseConversation | content.js:386-433 | an element becomes a conversation iff it has a link containing "/c/"; the record carries that url, the extracted or fallback id, cleaned texts, the estimated count and the "other" category |
| Scraper.ParseGpts | content.js:319-336 | the parsed GPTs are at most as many as the elements, and each url contains "/g/" |
| Scraper.ParseGptsSingle | content.js:328-333 | one element yields exactly its parsed GPT, or nothing when it has no GPT link |
| Scraper.ParseGptsAppend | content.js:328-333 | parsing a concatenation parses each part in turn: the result is one GPT per parsable element, in element order, none skipped and none invented |
| Scraper.ParseConversations | content.js:338-384 | the parsed conversations are at most as many as the elements, and each url contains "/c/" |
| Scraper.ParseConversationsSingle | content.js:369-377 | one element yields exactly its parsed conversation, or nothing when it has no conversation link |
| Scraper.ParseConversationsAppend | content.js:369-377 | parsing a concatenation parses each part in turn: the result is one conversation per parsable element, in element order, none skipped and none invented |
| Scraper.DeduplicateGpts | content.js:447-457 | keeps the first GPT per `name-url` key, drops no key, and keeps no key twice |
| Scraper.DeduplicateConversations | content.js:459-468 | keeps the first conversation per id, drops no id, and keeps no id twice |
| Scraper.DeduplicateConversationsIdempotent | content.js:459-468 | deduplicating conversations twice is deduplicating once |
| Scraper.ExtractGpts | content.js:96-127 | the synced GPTs have distinct `name-url` keys and GPT urls; each is one of the GPTs parsed from the sidebar (and, on a GPTs page, from its cards), and every parsed key is kept on some synced GPT |
| Scraper.ExtractConversations | content.js:338-384 | the synced conversations have distinct ids and conversation urls; each is one of the parsed conversations, and every parsed id is kept on some synced conversation |
| Scraper.ConversationIdsCovered | content.js:459-468 | deduplicating by id drops no id |
| Scraper.HandleContentMessage | content.js:63-94 | a message succeeds iff its action is one of the handled ones; each handled action returns its extraction; every other action gets the "unknown action" error |
| Background.InitialStore | background.js:63-87 | a fresh install stores no GPTs or conversations, the seven default categories, auto-sync on and zero syncs |
| Background.MigrateGpt | background.js:104-109 | migration fills a missing use count with 0, a missing or empty (0) last-use date with `now` and a missing category with "other", and changes nothing else |
| Background.MigrateGptIdempotent | background.js:104-109 | migrating an already migrated GPT changes nothing |
| Background.MigrateAll | background.js:104-109 | `gpts.map(...)`: the list keeps its length and position k holds the migrated k-th GPT |
| Background.MigrateData | background.js:98-113 | migration happens iff the previous version is below 1.0.0, and it migrates each stored GPT in place |
| Background.MigratedGptsAreComplete | background.js:104-109 | after migration every GPT has a use count, a last-use date and a non-empty category |
| Background.MigrationThreshold | background.js:100 | coming from 0.9 migrates; coming from 1.0 does not |
| Background.OldVersionIsLess | background.js:100 | 0.9 is below 1.0.0 |
| Background.CurrentVersionIsEqual | background.js:100 | 1.0 equals 1.0.0 |
| Background.OlderMajorIsLess | background.js:115-128 | a smaller single-digit major version compares below, whatever follows |
| Background.SyncIntervalMs | background.js:197 | the interval is the configured minutes times 60 000, or 5 minutes when the setting is falsy |
| Background.AutoSyncDueMonotone | background.js:200 | once an automatic sync is due it stays due as time passes |
| Background.AutoSyncGateIsStrict | background.js:200 | exactly one interval after the last sync is not yet due; one millisecond later is |
| Background.AutoSyncDue | background.js:194-200 | a sync is due when none is recorded (or the record is 0) or more than the interval has passed; no contract of its own, its meaning is stated by the two lemmas above and Background.NoAutoSyncWithinInterval |
| Background.RecordSync | background.js:463-471 | recording a sync adds one to the sync count, stamps the sync time and keeps every other statistic |
| Background.TriggerAutoSync | background.js:192-228 | the store changes only when a sync is due and the content script succeeds, and then only the last-sync time and the statistics change |
| Background.NoAutoSyncWithinInterval | background.js:192-228 | after a successful automatic sync, no further one is due within the interval |
| Background.Bump | background.js:476 | counting one more GPT raises that category's count by one and no other |
| Background.CategoryBreakdown | background.js:473-479 | as corrected (see "## Findings"): every category's count is the number of GPTs with that category, a key is present iff its count is positive, and the counts sum to the number of GPTs |
| Background.CategoryBreakdownAsWritten | background.js:473-479 | the breakdown object as written; no contract of its own, its entries are stated by Background.BreakdownAsWrittenEntry |
| Background.GetPositiveIffKey | background.js:473-479 | in a well-formed breakdown a key is present exactly when its count is positive |
| Background.BumpAsWritten | background.js:476 | on a plain object, a bump adds the key and leaves every other entry alone, except that a bump of "__proto__" changes nothing |
| Background.BreakdownAsWrittenEntry | background.js:473-479 | as written, a key is present iff it is not "__proto__" and some GPT has it; it holds the count, or for an inherited member's name that member's text followed by as many "1"s as there are GPTs |
| Background.BreakdownsAgreeOffPrototype | background.js:473-479 | for every key an object does not inherit, the breakdown as written has the same presence and count as the corrected one |
| Background.InheritedCategoryIsMiscounted | background.js:476 | one GPT filed under "constructor" is stored as text, and one filed under "__proto__" is not stored, where the corrected breakdown counts 1 |
| Background.GetUsageStats | background.js:481-490 | total use is the sum of the counts; the most-used GPT is absent iff there are no GPTs, and otherwise is a stored GPT used at least as often as every other |
| Background.MostUsedIsFirstMaximum | background.js:483 | because the sort is stable, the most-used GPT is the first one with the highest count |
| Background.TotalUsageBoundsEach | background.js:482 | with non-negative counts the total is at least each GPT's count |
| Background.TotalUsageNonNegative | background.js:482 | with non-negative counts the total is non-negative |
| Background.TotalUsage | background.js:482 | the sum of the use counts; no contract of its own, its bounds are stated by the two lemmas above and its change under one edit by Popup.TotalUsageUpdate |
| Background.RefreshedStats | background.js:446-461 | refreshed statistics record the current totals and update time, drop the old breakdown and usage objects (the update carries their replacements), and keep every other statistic |
| Background.UpdateStats | background.js:446-461 | the statistics, the breakdown (as corrected, see "## Findings") and the usage agree with the stored lists |
| Background.RemoveDuplicates | background.js:423-444 | the store is rewritten iff either list has a duplicate, and then with both lists cleaned |
| Background.RemoveDuplicatesSettles | background.js:423-444 | after one clean-up the next one writes nothing |
| Background.NameFromTitle | background.js:352-360 | without a page title the name is the default; a title without the " \| ChatGPT" suffix is used trimmed |
| Background.NameFromTitleStripsSuffix | background.js:356 | a title made of a name and the " \| ChatGPT" suffix yields the trimmed name |
| Background.SuffixDoesNotOverlap | background.js:356 | the suffix cannot start inside the name and overlap its copy at the end, so its first occurrence is the appended one |
| Background.AddGptFromUrl | background.js:332-388 | a link without a GPT id is refused; a url already stored is refused; otherwise exactly one GPT is appended, with the extracted id, the url, the title-derived name, the "other" category and no uses |
| Background.ContextMenuNameIsAlwaysDefault | background.js:352-360 | the content script never answers a title request, so a GPT added from the context menu always gets the default name |
| Background.BadgeText | background.js:230-242 | the badge is empty iff there are no GPTs, and otherwise is the count written in decimal without leading zeros |
| Background.FreshInstallState | background.js:63-87 | after installation the badge is empty and an automatic sync is due |
| Background.HandleBackgroundMessage | background.js:130-169 | exactly the stats, settings, export and notification actions succeed; `syncData` always fails; only `updateSettings` changes the store, by merging the new settings over the old ones |
| Options.CategoryId | options.js:470 | a category id is empty iff the name is, contains no whitespace and no capital of ASCII, Latin-1 or Latin Extended-A, and is no longer than the name |
| Options.CategoryIdIdempotent | options.js:470 | turning an id into an id changes nothing |
| Options.CategoryIdOfId | options.js:470 | a lower-case string without whitespace is its own id |
| Options.AddCategory | options.js:468-481 | adding appends the name's id iff it is new, keeps the existing categories in order, and keeps the list free of duplicates |
| Options.AddCategoryIdempotent | options.js:468-481 | adding the same name, or its id, a second time changes nothing |
| Options.AddCategoryFromInput | options.js:203-209 | blank input adds nothing; otherwise the trimmed input is added |
| Options.Reassign | options.js:488-493 | GPTs of the old category move to the new one, and every other GPT and field is unchanged |
| Options.DeleteCategory | options.js:483-503 | without confirmation nothing changes; with it, exactly that category is removed, the others keep their order, and its GPTs move to "other" |
| Options.DeleteCategoryKeepsCovered | options.js:483-503 | deleting any category but "other" leaves every GPT's category listed |
| Options.DeleteOtherOrphansItsGpts | options.js:483-503 | deleting "other" itself leaves its GPTs with an unlisted category |
| Options.RenameIn | options.js:518-520 | renaming replaces every occurrence of the category and nothing else |
| Options.RenameKeepsInvariants | options.js:511-523 | renaming to a new id keeps the list duplicate-free and every GPT's category listed |
| Options.EditedId | options.js:511-512 | the corrected id of a new name starts with the lower-cased first non-space character and contains no whitespace |
| Options.EditedIdAsWritten | options.js:512 | the id as written turns leading whitespace into a leading "-" |
| Options.EditTo | options.js:513-523 | an existing id is refused; otherwise the category and its GPTs are renamed |
| Options.EditCategory | options.js:505-533 | a missing or blank answer cancels; otherwise the corrected id is checked and applied |
| Options.EditCategoryAsWritten | options.js:505-533 | the same, with the id built from the untrimmed answer |
| Options.EditCategoryKeepsInvariants | options.js:505-533 | a successful edit keeps the list duplicate-free and every GPT's category listed |
| Options.EditAgreesWithAdd | options.js:468-533 | the corrected edit refuses a name exactly when adding it would change nothing, and otherwise produces the id adding would append |
| Options.EditedIdIgnoresSurroundingSpace | options.js:511-512 | the corrected id does not depend on surrounding whitespace |
| Options.EditAsWrittenKeepsLeadingSpace | options.js:505-533 | renaming "other" to " x" yields "-x" as written, but "x" when corrected |
| Options.CategoryDisplayName | options.js:455-466 | a built-in category shows its French label; every other category shows its id |
| Options.DisplayNamesAreFaithful | options.js:455-466 | the labelled ids are exactly the seven defaults, and an id is shown as itself iff it has no label |
| Options.LabelsAreDistinct | options.js:456-464 | no two built-in categories share a label |
| Options.CategoryDisplayNameAsWritten | options.js:455-466 | the lookup as written agrees with the corrected one except on names the plain object inherits |
| Options.ConstructorCategoryShowsInheritedMember | options.js:465 | a category named "constructor" can be added, and as written it displays an inherited member instead of its name |
| Options.CleanDuplicates | options.js:611-649 | reports "no duplicates" iff both lists are already clean; otherwise returns the cleaned lists and positive removal counts that add up |
| Options.CleanDuplicatesAgreesWithBackground | options.js:611-649 | the options page's clean-up and the service worker's clean-up agree |
| Options.ClearOldData | options.js:651-671 | without confirmation nothing happens; with it, exactly the conversations updated within 30 days stay, in their stored order, and the removed count is what was dropped |
| Options.ThirtyDaysOldIsRemoved | options.js:653-659 | a conversation exactly 30 days old is removed |
| Options.ImportData | options.js:564-609 | a confirmed import merges settings key by key, replaces the lists the file holds, and keeps the rest; an unconfirmed one changes nothing |
| Options.ImportDataIdempotent | options.js:564-609 | importing the same file twice is importing it once |
| Options.UpdateSetting | options.js:218-232 | exactly the given key changes; the theme is mirrored iff the key is "theme"; the service worker is told iff the key is a sync or notification setting |
| Options.NotifiedSettingsReachBackground | options.js:225-231 | when the service worker is told, its merged settings contain every setting of the page, including the new value |
| Options.StatsCounters | options.js:389-400 | the counters are the stored sync count, the number of favourites and the number of conversations active in the last 7 days |
| Options.ActiveConversationsSurvivePruning | options.js:396-399 | every conversation counted as active survives the 30-day pruning |
| Options.CategoryCountMatchesBreakdown | options.js:407 | the per-category count on the options page equals the count in the corrected breakdown (see "## Findings") |
| Options.CategoryCountMatchesBreakdownAsWritten | options.js:407 | against the breakdown as written the count agrees for every name an object does not inherit; under an inherited name other than "__proto__" the breakdown holds text |
| Options.CategoryCount | options.js:407 | the number of GPTs filed under the category, at most the number of GPTs; its agreement with the service worker's breakdown is stated by the two lemmas above |
| Popup.ReplaceAllChar | popup.js:57-61 | `replace(/c/g, rep)` introduces no character outside `rep` and removes every `c` |
| Popup.EscapeChar | popup.js:57-61 | each of `&<>"` becomes an entity starting with "&", every other character is kept, and no entity contains `<`, `>` or `"` |
| Popup.EscapeHtmlIsPerCharacter | popup.js:56-62 | the chain of four replacements escapes each character independently |
| Popup.EscapeHtmlHasNoMarkup | popup.js:56-62 | escaped text contains no `<`, `>` or `"` |
| Popup.EscapeHtmlRoundTrip | popup.js:56-62 | unescaping the escaped text gives the original text back |
| Popup.EscapeHtmlKeepsPlainText | popup.js:56-62 | text without `&<>"` is left unchanged |
| Popup.EscapeHtml | popup.js:56-62 | the escaped text is at least as long as the input, and every character outside the entity spellings `&amp;`, `&lt;`, `&gt;`, `&quot;` comes from the input and is not `<`, `>` or `"` |
| Popup.Capitalize | popup.js:51-53 | upper-cases only the first character (an ASCII or Latin Extended-A small letter becomes its capital), leaves the rest, keeps the string when the first character has no capital form, and keeps the empty string empty |
| Popup.CapitalizeIdempotent | popup.js:51-53 | capitalizing twice is capitalizing once |
| Popup.DiffDays | popup.js:23-24 | `Math.floor(diff / day)`: the number of whole days elapsed |
| Popup.FormatDate | popup.js:20-31 | "today" iff less than a day has passed, "yesterday" iff one to two days, days ago for up to a week (and for future dates), weeks ago for up to 30 days (the whole days elapsed divided by 7, rounded down), a calendar date otherwise |
| Popup.WeeksAgoIsWholeWeeks | popup.js:29 | the number of weeks shown is the number of whole weeks elapsed |
| Popup.FormatDateMonotone | popup.js:20-31 | as time passes a label only moves from "today" towards "calendar date" |
| Popup.FutureDateHasNegativeDays | popup.js:20-31 | a date in the future is shown as a negative number of days ago |
| Popup.ToggleTheme | popup.js:136-141 | the new theme is "dark" iff the old one was "light" |
| Popup.ToggleThemeInvolution | popup.js:136-141 | toggling twice restores a valid theme |
| Popup.SortGpts | popup.js:419-430 | "usage" and "recent" give a permutation in descending order; every other choice keeps the order |
| Popup.FilterAndSortGpts | popup.js:407-433 | the list holds exactly the GPTs matching search and category, with multiplicity; in descending usage order for "usage", in descending last-use order for "recent", and in stored order for every other choice |
| Popup.GptMatchesSearch | popup.js:409-410 | the case-insensitive search on name and description; no contract of its own, see Popup.GptSearchIgnoresCase and Popup.EmptySearchListsEverything |
| Popup.GptSearchIgnoresCase | popup.js:409-410 | a query and its lower-cased form match the same GPTs |
| Popup.GptMatchesCategory | popup.js:411-414 | "all", "favorites", "recent" (used in the last seven days) or the category itself; no contract of its own, its use is stated by Popup.FilterAndSortGpts |
| Popup.EmptySearchListsEverything | popup.js:407-433 | an empty search over all categories lists every GPT |
| Popup.UsageOrderIsStable | popup.js:419-430 | sorting by usage keeps GPTs with equal counts in their stored order |
| Popup.FilterConversations | popup.js:435-467 | the list holds exactly the conversations matching search, period and category, with multiplicity, newest first |
| Popup.ConversationMatchesSearch | popup.js:437-438 | the case-insensitive search on title and last message; no contract of its own, see Popup.ConversationSearchIgnoresCase |
| Popup.ConversationSearchIgnoresCase | popup.js:437-438 | a query and its lower-cased form match the same conversations |
| Popup.ConversationMatchesPeriod | popup.js:440-459 | "today" (same local day), "week", "month", "starred", and every other value keeps all; no contract of its own, its meaning is stated by Popup.StarredViewIsStarred and Popup.TodayWithinWeek |
| Popup.ConversationMatchesCategory | popup.js:461 | "all" or the conversation's own category; no contract of its own, see Popup.StarredViewIsStarred |
| Popup.StarredViewIsStarred | popup.js:456-461 | the starred view lists only starred conversations, of the chosen category |
| Popup.TodayWithinWeek | popup.js:444-455 | a conversation from today, not in the future, is also within the week and the month |
| Popup.GptIndex | popup.js:481-483 | the first GPT with the id, or -1 iff none has it |
| Popup.ToggleFavorite | popup.js:481-494 | flips the favourite flag of the first GPT with the id, and changes nothing else |
| Popup.ToggleFavoriteInvolution | popup.js:490-494 | toggling twice restores the list |
| Popup.DeleteGpt | popup.js:512-519 | with confirmation exactly the GPTs with the id are removed and the rest keep their order; without it nothing changes |
| Popup.OpenGpt | popup.js:522-529 | opening a GPT with a url adds one use and stamps the time on that GPT only |
| Popup.OpenGptAddsOneUse | popup.js:522-529 | opening a GPT raises the total use by exactly one |
| Popup.TotalUsageUpdate | popup.js:524 | replacing one GPT changes the total use by the difference of the two counts |
| Popup.EditGpt | popup.js:215-227 | only the name of the first GPT with the id can change, and only to the trimmed answer when that is non-blank and different |
| Popup.EditGptIdempotent | popup.js:215-227 | giving the same answer twice is giving it once |
| Popup.ConversationIndex | popup.js:545-547 | the first conversation with the id, or -1 iff none has it |
| Popup.ToggleStar | popup.js:545-558 | flips the star of the first conversation with the id, and changes nothing else |
| Popup.ToggleStarInvolution | popup.js:554-558 | starring twice restores the list |
| Records.Repeat | popup.js:475 | a handler run once by each of `k` listeners; no contract of its own, see Records.RepeatCounts and Records.RepeatInvolution |
| Records.RepeatCounts | popup.js:475 | a step that adds one to a measure and keeps an invariant adds `k` when run `k` times |
| Records.RepeatInvolution | popup.js:475 | a step that undoes itself, run `k` times, is no change for even `k` and one step for odd `k` |
| Popup.FavoriteClickAsWritten | popup.js:474-494 | every listener on the GPT list flips the favourite, and each re-render adds a listener; no contract of its own, see Popup.FavoriteClickAsWrittenParity |
| Popup.FavoriteClickAsWrittenParity | popup.js:474-494 | as written, a favourite click flips the flag once per listener, so an even number of listeners leaves it unchanged, and a re-render of a non-empty list doubles the listeners |
| Popup.StarClickAsWritten | popup.js:537-558 | the same for the star button of the conversation list; no contract of its own, see Popup.StarClickAsWrittenParity |
| Popup.StarClickAsWrittenParity | popup.js:537-558 | as written, a star click flips the star once per listener, and a re-render of a non-empty list doubles the listeners |
| Popup.SecondFavoriteClickIsLost | popup.js:474-494 | as written, after the first render the first favourite click flips the flag and the second changes nothing |
| Popup.OpenClick | popup.js:522-529 | a card click counts one use per listener; no contract of its own, see Popup.OpenClickAddsPerListener |
| Popup.OpenOnceStep | popup.js:522-529 | one card click keeps the GPT's position and url and adds one use |
| Popup.OpenGptKeepsTarget | popup.js:522-529 | one card click keeps the GPT's position and url |
| Popup.OpenGptRepeated | popup.js:522-529 | `k` card-click handlers add `k` uses |
| Popup.OpenClickAddsPerListener | popup.js:474-529 | a card click adds as many uses as the list has listeners |
| Popup.ToggleFavoriteKeepsTarget | popup.js:488-494 | a favourite toggle keeps the GPT's position, its url and the total use |
| Popup.OpenAfterFavoriteCountsTwice | popup.js:474-529 | as written, after the first render and one favourite click, a card click counts two uses |
| Popup.FavoriteClick | popup.js:474-494 | the favourite button with a single listener; no contract of its own, see Popup.FavoriteClickFlipsOnce |
| Popup.FavoriteClickFlipsOnce | popup.js:488-494 | as intended, a favourite click flips the flag of that GPT once and leaves one listener |
| Popup.FavoriteClickTwiceRestores | popup.js:488-494 | as intended, a second favourite click undoes the first, however many renders came before |
| Popup.StarClick | popup.js:553-558 | the star button with a single listener; no contract of its own, see Popup.StarClickFlipsOnce |
| Popup.StarClickFlipsOnce | popup.js:553-558 | as intended, a star click flips the star once and leaves one listener |
| Popup.OpenClickAddsOneUse | popup.js:522-529 | as intended, a card click counts exactly one use, however many renders came before |
| Popup.RenameConversation | popup.js:600-616 | a non-blank, different title is stored trimmed with the update time; every other answer changes nothing |
| Popup.RenameConversationIdempotent | popup.js:600-616 | giving the same title twice at the same time is giving it once |
| Popup.EditConversationCategory | popup.js:619-638 | a non-blank answer naming a listed category is stored trimmed; every other answer changes nothing |
| Popup.EditConversationCategoryKeepsListed | popup.js:619-638 | an edit changes only categories, and a changed category is one from the list |
| Popup.EditConversationCategoryIdempotent | popup.js:619-638 | choosing the same category twice is choosing it once |
| Popup.LoadConversations | popup.js:960 | every loaded conversation has a category, "other" when it had none |
| Popup.LoadConversationsIdempotent | popup.js:960 | loading a loaded list changes nothing, and a list whose conversations all have a category loads unchanged |
| Popup.LoadCategories | popup.js:961 | the stored category list, or the seven defaults when none is stored |
| Popup.LoadCategoriesRoundTrip | options.js:478 | a category list saved by the options page is the list the popup loads |
| Popup.FreshInstallLoadsDefaults | background.js:63-87 | after a fresh install the popup loads the seven default categories |
| Popup.ImportAppend | popup.js:790-798 | imported records are appended after the current ones |
| Popup.ImportAppendMultiset | popup.js:790-798 | as multisets, the result is the current records plus the imported ones: nothing is lost, merged or invented |
| Popup.UpdateSyncStats | popup.js:205-212 | a sync from the popup adds one to the sync count and records the totals and the sync time; the key set gains exactly those four keys, and every other statistic keeps its value |
| Popup.SyncStatsAgreeWithBackground | popup.js:205-212 | the popup records the sync count and time the way the service worker does |

## Left out

- The DOM, `chrome.storage`, `chrome.tabs`, `chrome.scripting`, `chrome.action`, `chrome.notifications`, the context menu, timers, `confirm`, `prompt` and toasts. Their inputs and outputs become parameters and results.
- Scraping selectors and icon extraction (`querySelector` chains). A page is modelled as the list of elements already found, each with its link, texts and star flag.
- `generateId` uses the clock and randomness. Each element carries a `fallbackId` instead.
- ISO date strings are modelled as integer milliseconds. `new Date()` is the parameter `now`.
- `toLocaleDateString` output is modelled as the label `CalendarDate`, because the text depends on the locale.
- Popup.FilterConversations: the local-day comparison of the "today" filter takes the time-zone offset as a parameter.
- `\p{L}` covers ASCII, Latin-1 and Latin Extended-A/B; `\p{N}` covers ASCII and Latin-1. Full Unicode tables are out of scope. `\s` and `trim` are modelled exactly.
- Text.Lower, Text.LowerChar: `toLowerCase` is modelled for the capitals of ASCII, Latin-1 and Latin Extended-A. Capitals of Latin Extended-B, Greek, Cyrillic and other scripts are left unchanged. "İ" (U+0130), which JavaScript lowers to two characters, is also left unchanged, so that lowering keeps the length.
- Options.CategoryId: for the same reason, a capital outside ASCII, Latin-1 and Latin Extended-A (or "İ") stays in the id.
- Popup.Capitalize, Text.UpperChar: `toUpperCase` is modelled for the small letters of ASCII, Latin-1 and Latin Extended-A, plus "µ". Other scripts, surrogate pairs and the other multi-character mappings are not modelled.
- Versions.CompareVersions: `Number(part)` is modelled for decimal numerals with surrounding whitespace. Signed numerals ("-1", "+1"), "Infinity", and hexadecimal, exponent and fractional forms read as 0 in the model. Such a component compares as 0 here, though JavaScript gives it its own value.
- Background.SyncIntervalMs: a non-numeric but truthy `syncInterval` (a string such as "10") is not converted, because settings are stored as numbers.
- Background.GetUsageStats: `averageUsage` is a floating-point division and is left out. The in-place sort of the stored array is not modelled: the model returns the first maximum, which is what the stable sort puts first.
- Popup.SortGpts: the `name` sort (`localeCompare`, locale-dependent) keeps the stored order. The `recent` sort treats a missing `lastUsed` as time 0 rather than `NaN`.
- Background.CategoryBreakdown: the key order of the resulting object is not modelled, only the counts. It counts every category correctly, including names a plain object inherits. `Background.CategoryBreakdownAsWritten` models the object as written (see "## Findings").
- Background.UpdateStats: the breakdown it stores is the corrected one. Under an inherited name such as "constructor", the source stores text instead of a count.
- Options.CategoryCountMatchesBreakdown: compares against the corrected breakdown. Against the breakdown as written it holds only for names an object does not inherit (`Options.CategoryCountMatchesBreakdownAsWritten`).
- Background.TriggerAutoSync: `recordSync` reads the clock a second time (background.js:466-468), so the stored `lastSyncTime` can be slightly later than `lastAutoSync`. The model uses one `now` for both.
- Tab-update filtering by url, keyboard commands and notification display in the service worker are I/O and are left out.
- Options.ImportData: `JSON.parse` failures and the file reader are left out. The file is given already parsed.
- Records.CounterOr0: counters are assumed numeric. A Bool, string or list stored under a counter key reads as 0, where JavaScript would add to it or concatenate, because the extension only ever writes numbers there.
- Background.MigrateGpt: a stored `lastUsed` of 0 stands for the empty date string "", which `lastUsed || now` replaces. The epoch date "1970-01-01T00:00:00.000Z" is truthy in the source and kept, but with dates as milliseconds it also reads as 0 and is replaced by `now`. `MigrateGptIdempotent` therefore requires `now != 0`.
- Popup.LoadCategories: a stored `categories` value that is present but not a list is treated as absent.
- Popup.LoadConversations: a category stored explicitly as `null` survives the spread in the source; the model does not tell an explicit `null` from a missing field.
- Popup.OpenClick: the tabs opened are I/O and are not modelled. As written, one tab opens per listener, like the uses counted.
- Popup.StarClickAsWritten: the conversation list's other handlers (open, rename, category, and the double-click rename at popup.js:587-597) also run once per listener as written. Only the star and the card-click use count are modelled with listeners, because the rest is prompts and tabs.
- Rendering (HTML templates, icons, counts in the DOM) is left out. Only the values rendered are modelled.

## Findings

| source | as written | input that shows it | evidently intended | confidence | as-written member | corrected member |
|---|---|---|---|---|---|---|
| options.js:505-533 | `editCategory` checks that the trimmed answer is non-blank but builds the id from the untrimmed answer | renaming to " x" stores the id "-x", while adding " x" stores "x" | the id is built from the trimmed answer, as `addCategory` does through its input handler | medium, not executed | Options.EditCategoryAsWritten, Options.EditAsWrittenKeepsLeadingSpace | Options.EditCategory, Options.EditAgreesWithAdd |
| options.js:455-466 | `names[category] \|\| category` also finds members every object inherits | a category named "constructor" displays the `Object` constructor instead of its name | only the seven listed ids are translated; every other id is shown as itself | medium, not executed | Options.CategoryDisplayNameAsWritten, Options.ConstructorCategoryShowsInheritedMember | Options.CategoryDisplayName, Options.DisplayNamesAreFaithful |
| popup.js:470-598 | every render ends (popup.js:339 and 404) by adding one more delegated `click` listener (popup.js:475 and 538) to the list container, which outlives the render | render the GPT list once, click a GPT's favourite button, click it again: the second click runs two handlers that flip the flag twice, so nothing changes; a click on the card then counts two uses and opens two tabs | each click runs its handler once | high, not executed | Popup.FavoriteClickAsWrittenParity, Popup.SecondFavoriteClickIsLost, Popup.OpenAfterFavoriteCountsTwice, Popup.StarClickAsWrittenParity | Popup.FavoriteClickFlipsOnce, Popup.FavoriteClickTwiceRestores, Popup.OpenClickAddsOneUse, Popup.StarClickFlipsOnce |
| background.js:473-479 | `getCategoryBreakdown` counts into a plain object `{}`, whose lookup also finds the members every object inherits | one GPT filed under "constructor" stores the text of the `Object` function followed by "1" instead of 1; one filed under "__proto__" is not counted at all | every category gets its number of GPTs, whatever its name | medium, not executed | Background.BreakdownAsWrittenEntry, Background.InheritedCategoryIsMiscounted | Background.CategoryBreakdown, Background.BreakdownsAgreeOffPrototype |
