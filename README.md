# Gita Today: verse catalog, favourites and settings in Dafny

Gita Today is a React Native app that shows a verse of the Bhagavad Gita each day. It lets the
user browse verses by topic, search them, ask a question that a keyword matcher answers with a
verse, save favourites and pick a colour theme. This project models the app's core and proves
what the core promises:

- `verse_utils.dfy` (module `VerseUtils`) holds the catalog queries of `src/utils/verseUtils.ts`:
  - the random and daily pick;
  - lookup by tag, free-text search, the sorted tag list and lookup by id;
  - the keyword scorer behind "Ask Krishna". The method `GetAIResponse` runs the source's nested
    loops and is proved equal to the function `Response`. `Response` answers with `Leader`, the
    first verse with the highest positive score, or falls back to the random pick.
- `favorites.dfy` (module `Favorites`) models `src/contexts/FavoritesContext.tsx`. The class
  `FavoritesStore` holds the in-memory list and the stored record, and its methods load, save,
  add and remove. Pure functions on lists (`Prepended`, `Without`, `Saved`) specify them.
  `OnePerId` is the "one entry per verse" invariant.
- `theme.dfy` (module `Theme`) models `src/contexts/ThemeContext.tsx`:
  - the three colour tables;
  - the derived theme record;
  - the class `SettingsStore`, with its stored theme and notification strings and its methods
    `LoadSettings`, `SetThemeMode` and `SetDailyNotification`.
- `action_buttons.dfy` (module `ActionButtons`) models `src/components/ActionButtons.tsx`:
  - `HandleSave` is the save/unsave toggle, proved against the function `Toggled`;
  - `ShareMessage` builds the share text. It is proved to name the verse's chapter and verse
    number in a form that can be read back.
- `text.dfy` (module `Text`) models the JavaScript string operations the core relies on:
  - `toLowerCase` as `Lower`;
  - `includes` as `Includes`, proved sound and complete against an occurrence predicate;
  - `split(' ')` as `Split`, with `Join` as its inverse;
  - the default `sort` order on strings as `Below`;
  - number-to-text interpolation as `Decimal`.
- `seqs.dfy` (module `Seqs`) holds `Array.prototype.filter` as `Filter` and what it keeps.
- `types.dfy` (module `Types`) holds `Verse`, `FavoriteVerse` and `Option`.
- `scenario.dfy` (module `Scenario`) works a two-verse catalog through the queries. One verse is
  tagged "Peace", the other "Fear". The question "I feel so much fear today" is proved to be
  answered by the "Fear" verse.

The verse catalog (`src/data/verses.json`) is not part of this model. Every query takes the
catalog as a parameter, so each property holds for any catalog. The random draw and the day of
the year are parameters too. A storage read or write that can fail takes a `readOk`/`writeOk`
flag. For the favourites load and save and for the settings load, a failure selects the
source's `catch` branch. The two settings setters have no `catch`: for them the flag only
decides whether the stored value changes (see "## Left out").

`addFavorite` puts the new entry in front without checking for an entry with the same id
(`src/contexts/FavoritesContext.tsx:46`). `Favorites.AddKeepsDuplicates` proves that adding a
saved verse again leaves two entries for its id. The save button adds only a verse that is
not saved, and `ActionButtons.PressesKeepOnePerId` proves that any sequence of presses keeps
one entry per id.

## Model

| member | source | states |
|---|---|---|
| VerseUtils.RandomVerse | src/utils/verseUtils.ts:6-9 | the verse at a drawn index below the catalog size is a catalog member |
| VerseUtils.DailyVerse | src/utils/verseUtils.ts:11-19 | the daily verse is a catalog member: the one at day-of-year modulo the catalog size |
| VerseUtils.DailyRotationCovers | src/utils/verseUtils.ts:17-18 | every run of catalog-size consecutive days shows every verse, each on the day whose remainder is its index |
| VerseUtils.VersesByTag | src/utils/verseUtils.ts:21-25 | the result keeps catalog order and holds exactly the verses with a tag equal to the query ignoring case, each as many times as in the catalog |
| VerseUtils.HasTagIgnoresCase | src/utils/verseUtils.ts:23 | `HasTag` (some tag equals the query after lower-casing both) does not depend on the case of the query |
| VerseUtils.SearchVerses | src/utils/verseUtils.ts:27-34 | the result keeps catalog order and holds exactly the verses meeting `MatchesQuery`, whose lower-cased tag, English text or reflection contains the lower-cased query, each as many times as in the catalog |
| VerseUtils.TagResultsAreSearchResults | src/utils/verseUtils.ts:21-34 | every verse found by a tag is also found by searching for the same text |
| VerseUtils.EmptySearchKeepsAll | src/utils/verseUtils.ts:27-34 | the empty query matches every verse, so search returns the whole catalog |
| VerseUtils.TagUnionIff | src/utils/verseUtils.ts:36-40 | the collected tag set holds exactly the tags of some verse |
| VerseUtils.GetAllTags | src/utils/verseUtils.ts:36-42 | the tag list is strictly sorted, free of duplicates, and holds exactly the tags of some verse |
| VerseUtils.IndexOfId | src/utils/verseUtils.ts:44-46 | the index of the first verse with the id, or the catalog size when there is none |
| VerseUtils.VerseById | src/utils/verseUtils.ts:44-46 | none exactly when no verse has the id; otherwise the first catalog verse with that id |
| VerseUtils.VerseByIdOfMember | src/utils/verseUtils.ts:44-46 | with unique ids, looking up a catalog verse's own id gives that verse back |
| VerseUtils.TagHits | src/utils/verseUtils.ts:60-62 | the number of tags containing the keyword is at most the number of tags |
| VerseUtils.TagHitsCounts | src/utils/verseUtils.ts:60-62 | the tag count equals the number of tags kept by filtering on "the lower-cased tag contains the keyword" |
| VerseUtils.TagHitsPositive | src/utils/verseUtils.ts:60-62 | the tag count is positive exactly when some lower-cased tag contains the keyword |
| VerseUtils.KeywordScoreBounds | src/utils/verseUtils.ts:58-65 | `KeywordScore` (2 per containing tag, 1 for the reflection, 1 for the English text, for keywords that pass `Counted`, the length-above-3 test): a keyword of three characters or fewer adds 0; a counted keyword that a tag contains adds at least 2; a keyword adds at most 2 per tag plus 2, and adds something only when it is counted and occurs in a tag, the reflection or the English text |
| VerseUtils.ScorePositive | src/utils/verseUtils.ts:56-66 | `Score` (the sum of `KeywordScore` over the keywords) is above 0 exactly when some keyword adds to it, and is 0 when no keyword is longer than three characters |
| VerseUtils.Keywords | src/utils/verseUtils.ts:50 | the keywords hold no space, there is at least one, and joined with single spaces they give back the lower-cased question |
| VerseUtils.ScoreCons | src/utils/verseUtils.ts:56-66 | a verse's score is additive over keywords when a keyword is put in front |
| VerseUtils.ShortKeywordsIgnored | src/utils/verseUtils.ts:58-65 | keywords of three characters or fewer never change a score: it equals the score of the long keywords alone |
| VerseUtils.Leader | src/utils/verseUtils.ts:53-71 | the scan's best match: positive score, no later verse scores higher, every earlier verse scores strictly lower, and none exactly when all scores are 0 |
| VerseUtils.Response | src/utils/verseUtils.ts:49-74 | the answer is always a catalog verse |
| VerseUtils.NoLongKeywordFallsBack | src/utils/verseUtils.ts:58-73 | a question with no keyword longer than three characters gets the random fallback verse |
| VerseUtils.EmptyQuestionFallsBack | src/utils/verseUtils.ts:49-73 | the empty question gets the random fallback verse |
| VerseUtils.GetAIResponse | src/utils/verseUtils.ts:49-74 | the loop over verses and keywords returns the specified response: the leader, or the random verse |
| Text.Lower | src/utils/verseUtils.ts:23 | each upper-case ASCII letter becomes its lower-case letter (32 code points up), every other character is unchanged, and no upper-case ASCII letter remains |
| Text.LowerIdempotent | src/utils/verseUtils.ts:23 | lower-casing twice gives the same as lower-casing once |
| Text.IncludesComplete | src/utils/verseUtils.ts:30-32 | if the needle occurs at some position, `includes` reports it |
| Text.IncludesSound | src/utils/verseUtils.ts:30-32 | if `includes` reports the needle, there is a position where it occurs |
| Text.IncludesIff | src/utils/verseUtils.ts:30-32 | `Includes`, the model of `includes`, holds exactly when the needle occurs at some position |
| Text.IncludesTooLong | src/utils/verseUtils.ts:30-32 | a needle longer than the text is never included |
| Text.IncludesFirstChar | src/utils/verseUtils.ts:30-32 | an included non-empty needle's first character occurs in the text |
| Text.IncludesSameLength | src/utils/verseUtils.ts:30-32 | a needle as long as the text is included only when the two are equal |
| Text.IncludesEmpty | src/utils/verseUtils.ts:28-32 | the empty string is included in every string |
| Text.Split | src/utils/verseUtils.ts:50 | splitting gives at least one piece and no piece contains the separator |
| Text.SplitWithoutSeparator | src/utils/verseUtils.ts:50 | a string without the separator splits into itself alone |
| Text.SplitWord | src/utils/verseUtils.ts:50 | a separator-free word followed by the separator splits off as the first piece |
| Text.SplitAtSeparator | src/utils/verseUtils.ts:50 | splitting at a separator splits each side on its own |
| Text.JoinSplit | src/utils/verseUtils.ts:50 | joining the pieces with the separator gives back the string |
| Text.SplitJoin | src/utils/verseUtils.ts:50 | splitting the join of separator-free pieces gives back the pieces |
| Text.BelowIrreflexive | src/utils/verseUtils.ts:41 | no string sorts before itself |
| Text.BelowTransitive | src/utils/verseUtils.ts:41 | the sort order is transitive |
| Text.BelowTotal | src/utils/verseUtils.ts:41 | of two different strings, one sorts before the other |
| Text.StrictlySortedDistinct | src/utils/verseUtils.ts:41 | a strictly sorted list has no repeated element |
| Text.Insert | src/utils/verseUtils.ts:41 | inserting into a strictly sorted list keeps it strictly sorted and adds exactly the new element |
| Text.SortStrings | src/utils/verseUtils.ts:41 | sorting gives a strictly sorted list with the same members |
| Text.SortedHead | src/utils/verseUtils.ts:41 | the head of a strictly sorted list sorts before every other member |
| Text.SortedByMembers | src/utils/verseUtils.ts:41 | two strictly sorted lists with the same members are equal, so the sorted tag list is unique |
| Text.DigitChar | src/components/ActionButtons.tsx:28 | a decimal digit's character is a digit |
| Text.Decimal | src/components/ActionButtons.tsx:28 | a number's decimal text is non-empty, all digits, without a leading zero |
| Text.DecimalRoundTrip | src/components/ActionButtons.tsx:28 | reading back the decimal text of a number gives the number |
| Text.LeadingDigits | src/components/ActionButtons.tsx:28 | the length of the longest all-digit prefix |
| Text.LeadingDigitsOf | src/components/ActionButtons.tsx:28 | digits followed by a non-digit have exactly the digits as their leading run |
| Seqs.Filter | src/utils/verseUtils.ts:22-24 | filtering keeps, in order, every occurrence of each element satisfying the predicate and nothing else |
| Seqs.FilterMembership | src/utils/verseUtils.ts:22-24 | an element is kept exactly when it is in the input and satisfies the predicate |
| Seqs.FilterConcat | src/contexts/FavoritesContext.tsx:52 | filtering a concatenation filters each part |
| Seqs.FilterKeepsAll | src/contexts/FavoritesContext.tsx:52 | when every element satisfies the predicate, filtering changes nothing |
| Seqs.FilterKeepsNone | src/utils/verseUtils.ts:58-65 | when no element satisfies the predicate, filtering leaves nothing |
| Seqs.FilterDropsFailing | src/contexts/FavoritesContext.tsx:52 | when some element fails the predicate, the filtered list is strictly shorter |
| Favorites.Saved | src/contexts/FavoritesContext.tsx:57-59 | an id is saved exactly when some entry carries it |
| Favorites.CountId | src/contexts/FavoritesContext.tsx:46 | the number of entries with an id is positive exactly when the id is saved |
| Favorites.Prepended | src/contexts/FavoritesContext.tsx:41-46 | adding puts the new entry, stamped with the current time, in front of the unchanged old list |
| Favorites.Without | src/contexts/FavoritesContext.tsx:52 | removing keeps, in order, exactly the entries with another id, each as many times as before |
| Favorites.AddMakesSaved | src/contexts/FavoritesContext.tsx:41-49 | after adding, the verse is saved and every other id keeps its saved status |
| Favorites.AddKeepsDuplicates | src/contexts/FavoritesContext.tsx:41-46 | adding a saved verse again adds a second entry for its id |
| Favorites.AddFreshKeepsOnePerId | src/contexts/FavoritesContext.tsx:41-46 | adding an unsaved verse keeps one entry per id |
| Favorites.RemoveMakesUnsaved | src/contexts/FavoritesContext.tsx:51-55 | after removing, the id is not saved and every other id keeps its saved status |
| Favorites.RemoveAbsentIsNoop | src/contexts/FavoritesContext.tsx:52 | removing an id that is not saved leaves the list unchanged |
| Favorites.FilterKeepsOnePerId | src/contexts/FavoritesContext.tsx:52 | any filter of a list with one entry per id keeps one entry per id |
| Favorites.RemoveKeepsOnePerId | src/contexts/FavoritesContext.tsx:51-55 | removing keeps one entry per id |
| Favorites.Loaded | src/contexts/FavoritesContext.tsx:21-31 | a parsed stored list replaces the in-memory one; an absent, empty or unparsable record leaves it unchanged |
| Favorites.FavoritesStore.constructor | src/contexts/FavoritesContext.tsx:15 | the store starts with no favourites over the given stored record |
| Favorites.FavoritesStore.LoadFavorites | src/contexts/FavoritesContext.tsx:21-31 | a successful read replaces the list by the loaded one; a failed read changes nothing; storage is not written |
| Favorites.FavoritesStore.SaveFavorites | src/contexts/FavoritesContext.tsx:33-39 | a successful write stores the given list; a failed write leaves storage as it was; the in-memory list is unchanged |
| Favorites.FavoritesStore.AddFavorite | src/contexts/FavoritesContext.tsx:41-49 | the list becomes the new entry in front of the old list, and storage holds it when the write succeeds; the verse is then a favourite |
| Favorites.FavoritesStore.RemoveFavorite | src/contexts/FavoritesContext.tsx:51-55 | the list loses exactly the entries with the id, and storage holds it when the write succeeds; the id is then not a favourite |
| Favorites.FavoritesStore.IsFavorite | src/contexts/FavoritesContext.tsx:57-59 | true exactly when some entry in the list carries the id |
| Favorites.AddThenRelaunch | src/contexts/FavoritesContext.tsx:15-49 | after an add whose write succeeds, a freshly started store loads exactly the list in memory; after a failed write it loads the record from before the add |
| Favorites.RemoveThenRelaunch | src/contexts/FavoritesContext.tsx:15-55 | after a removal whose write succeeds, a freshly started store loads exactly the list in memory, without the id; after a failed write it loads the record from before the removal |
| Theme.Colors | src/contexts/ThemeContext.tsx:25-65 | a colour table exists exactly for the three modes, and light, dark and temple each get their own table |
| Theme.ThemeOf | src/contexts/ThemeContext.tsx:106-110 | the theme carries the mode, the temple flag exactly for temple, and the light, dark or temple table for those modes and none for any other string |
| Theme.EncodeBool | src/contexts/ThemeContext.tsx:103 | a flag is stored as "true" or "false" |
| Theme.LoadedMode | src/contexts/ThemeContext.tsx:89 | a stored non-empty theme string becomes the mode; an absent or empty one keeps the current mode |
| Theme.LoadedNotification | src/contexts/ThemeContext.tsx:90 | a stored notification string sets the flag to whether it is "true"; an absent one keeps the current flag |
| Theme.NotificationRoundTrip | src/contexts/ThemeContext.tsx:90-103 | loading a stored notification flag gives back the flag that was set |
| Theme.ModeRoundTrip | src/contexts/ThemeContext.tsx:89-98 | loading a stored mode gives back the mode that was set |
| Theme.SettingsStore.constructor | src/contexts/ThemeContext.tsx:77-78 | settings start in light mode with notifications on, over the given stored strings |
| Theme.SettingsStore.LoadSettings | src/contexts/ThemeContext.tsx:84-94 | a successful read applies the stored mode and flag; a failed read changes nothing; storage is not written; a valid mode stays valid |
| Theme.SettingsStore.SetThemeMode | src/contexts/ThemeContext.tsx:96-99 | the mode is set at once and stored when the write succeeds; the notification flag is untouched |
| Theme.SettingsStore.SetDailyNotification | src/contexts/ThemeContext.tsx:101-104 | the flag is set at once and stored as text when the write succeeds; the mode is untouched |
| Theme.SettingsStore.CurrentTheme | src/contexts/ThemeContext.tsx:106-110 | the current theme carries the current mode, the temple flag exactly for temple, and the colour table of the current mode (the light, dark or temple table, none for any other string), which is present whenever the settings are valid |
| Theme.SetThenRelaunch | src/contexts/ThemeContext.tsx:80-104 | settings written by the setters are what a freshly started store loads back |
| ActionButtons.ToggleFlips | src/components/ActionButtons.tsx:18-24 | a press flips whether the verse is saved and leaves every other id's status alone |
| ActionButtons.Toggled | src/components/ActionButtons.tsx:18-24 | pressing on a saved verse leaves a strictly shorter subsequence of the list that keeps, in order, every entry with another id as many times as before and nothing else; pressing on an unsaved one puts the verse, stamped now, in front of the unchanged list |
| ActionButtons.ToggleKeepsOnePerId | src/components/ActionButtons.tsx:18-24 | a press keeps one entry per id |
| ActionButtons.ToggleTwiceRestores | src/components/ActionButtons.tsx:18-24 | saving an unsaved verse and then unsaving it restores the list |
| ActionButtons.PressesKeepOnePerId | src/components/ActionButtons.tsx:16-24 | any sequence of save presses keeps one entry per id |
| ActionButtons.PressesParity | src/components/ActionButtons.tsx:16-24 | after `AfterPresses` (the presses applied in order through `Toggled`), an id is saved exactly when its saved status at the start and the parity of the presses on it say so |
| ActionButtons.HandleSave | src/components/ActionButtons.tsx:16-24 | the store's list becomes the toggled list and is stored when the write succeeds; the verse's favourite status flips; one entry per id is kept |
| ActionButtons.ShareMessage | src/components/ActionButtons.tsx:28 | the message starts with the rosary header and ends with the "Shared from Gita Today" footer |
| ActionButtons.ReadNumbersOf | src/components/ActionButtons.tsx:28 | digits, a colon and digits followed by a non-digit read back as the two numbers |
| ActionButtons.ShareMessageNamesVerse | src/components/ActionButtons.tsx:28 | the share message names the verse: its `Reference` part, chapter and verse joined by a colon, reads back as the verse's chapter and verse number |
| Scenario.ScenarioByTag | src/utils/verseUtils.ts:21-25 | in the two-verse catalog, tag "peace" finds the verse tagged "Peace" only |
| Scenario.ScenarioAllTags | src/utils/verseUtils.ts:36-42 | the tag list of the two-verse catalog is "Fear", "Peace" |
| Scenario.PeaceMissesFear | src/utils/verseUtils.ts:27-34 | "fear" occurs in no tag, text or reflection of the "Peace" verse |
| Scenario.ScenarioSearch | src/utils/verseUtils.ts:27-34 | the query "fear" finds the verse tagged "Fear" only |
| Scenario.ScenarioLower | src/utils/verseUtils.ts:50 | the sample question lower-cases letter by letter |
| Scenario.AskedJoined | src/utils/verseUtils.ts:50 | the six sample keywords joined by spaces give the lower-cased question |
| Scenario.ScenarioKeywords | src/utils/verseUtils.ts:50 | the sample question yields the keywords "i", "feel", "so", "much", "fear", "today" |
| Scenario.ScenarioScoreSum | src/utils/verseUtils.ts:56-66 | a verse's score for the sample keywords is the sum of each keyword's share |
| Scenario.ScenarioPeaceScore | src/utils/verseUtils.ts:56-66 | the "Peace" verse scores 0 for the sample question |
| Scenario.ScenarioFearScore | src/utils/verseUtils.ts:56-66 | the "Fear" verse scores 2, for its one matching tag |
| Scenario.ScenarioAsk | src/utils/verseUtils.ts:49-74 | the sample question is answered by the "Fear" verse whatever the random draw |

## Left out

- The catalog file `src/data/verses.json` is not part of this model; every query takes the catalog as a parameter.
- `Math.random` is not modelled: the random pick takes the drawn index as a parameter.
- The date arithmetic of the daily pick is not modelled (the `Date` clock, the millisecond division, time zones and daylight-saving shifts): the day of the year is a parameter.
- The random and daily picks require a non-empty catalog. On an empty catalog the source returns `undefined`, which the model does not represent.
- VerseUtils.Response: like `VerseUtils.GetAIResponse`, requires a fallback index below the catalog size, so it requires a non-empty catalog. On an empty catalog the source's fallback returns `undefined`.
- VerseUtils.Counted: measures a keyword in Unicode scalar values, while `keyword.length > 3` in `getAIResponse` counts UTF-16 code units. `VerseUtils.GetAIResponse` uses the same measure. They differ only for characters outside the Basic Multilingual Plane: two emoji have length 4 in the source and count, while the model measures 2 and ignores them.
- Text.Lower: lower-cases ASCII letters only; the Unicode case mapping of `toLowerCase` is not modelled.
- Text.Below: compares characters as Unicode scalar values, while the default `sort` compares UTF-16 code units. The two orders differ only for characters outside the Basic Multilingual Plane.
- JSON encoding and decoding of the favourites record are not modelled. The stored record is a datatype that is absent, empty, unparsable or a parsed list. `savedAt` is a number supplied by the caller in place of `new Date()`.
- Asynchrony is not modelled. Each storage call completes before the next operation starts, so the race between the mount-time load and an early add does not arise, and neither do React's stale closures over the list.
- A failed read or write is a `readOk`/`writeOk` parameter. The error logging in the `catch` branches is left out.
- Theme.SettingsStore.SetThemeMode: a rejected write is modelled like a failed one, with storage unchanged. The source does not catch that rejection: the promise rejects after the state is set.
- Theme.SettingsStore.SetDailyNotification: a rejected write is modelled like a failed one, with storage unchanged. The source does not catch that rejection either.
- A stored theme string outside light, dark and temple is accepted as the mode, as in the source. Its colours are then `None`. The source reads `themes[themeMode]` on an object literal, which gives `undefined`, or an inherited `Object.prototype` member for names such as `toString`, `constructor` or `__proto__`; the model does not represent those inherited members.
- The context providers, the `useTheme`/`useFavorites` hooks and the errors they throw outside a provider are React plumbing and are not modelled.
- `handleShare`'s call to `Share.share`, its title and the error alert are I/O and are not modelled. Only the message text is.
- ActionButtons.ShareMessage: its contract pins the header, the footer and the verse reference. The Sanskrit, English and reflection text in between is given by its definition alone.
- Rendering, styles, emoji labels and the refresh button of the action bar are presentation and are not modelled.
