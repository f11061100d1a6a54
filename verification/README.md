# Genshin roulette: verified model of the roll, persistence and catalogue core

This project is a Dafny model of the logic behind a two-stage Genshin Impact
roulette web app. A user draws a character and then a boss from pools they
filter and select. Every draw goes into a capped history ledger, and the whole
UI state survives a reload through JSON cookies. The model covers two parts:

- **The roulette and persistence engine (`src/App.js`).**
  - The cookie normalizers coerce an arbitrary decoded JSON value into well-formed settings, filters, selection and history.
  - The history cookie is trimmed to a size budget.
  - The boss-name classifiers and the character and boss filter predicates.
  - The roll-strip builders, and a per-stage roulette state machine: guarded roll, landing, edge-triggered ticks.
  - Selection and pool operations.
  - The history ledger: append, re-truncate, delete, view.
  - The boot-time state loader.
- **The catalogue helpers (`src/services/genshinApi.js`).**
  - Whitespace normalisation, `keyify`, `toSlug` and URL deduplication.
  - Localized-name picking and boss-entry merging.
  - Deduplication by id and the character metadata index.
  - The build, filter and sort step of `mapCharacters`.

Modules follow the program's structure:

| module | file | contents |
|---|---|---|
| `Wrappers` | wrappers.dfy | `Option`, `Result` |
| `Text` | text.dfy | JavaScript whitespace, `trim`, ASCII lower-casing, `includes`, word splitting, UTF-16 length |
| `Seqs` | seqs.dfy | filter, first-occurrence dedupe, index, prefix take |
| `Json` | json.dfy | decoded JSON values and JavaScript `typeof`/`Number()` coercions |
| `Catalog` | catalog.dfy | catalogue items and `getItemName` |
| `Filters` | filters.dfy | filter records, boss-name classifiers, the two match predicates, chip toggling |
| `History` | history.dfy | ledger entries, append, truncate, delete, the date and stage view |
| `SettingsCodec`, `FilterCodec`, `HistoryCodec` | settings_codec.dfy, filter_codec.dfy, history_codec.dfy | cookie normalizers, their encoders and round trips, cookie trimming |
| `Pool` | pool.dfy | selection sets, catalogue-load pruning, effective pools |
| `Roulette` | roulette.dfy | strip builders and the roulette state machine |
| `Boot` | boot.dfy | `loadInitialState`, the cookie writers and the reload round trip |
| `CatalogText` | catalog_text.dfy | `normalizeSpaces`, `keyify`, `toSlug`, `uniqueUrls` |
| `CatalogMerge` | catalog_merge.dfy | `pickLocalizedName`, `mergeBossEntries`, `dedupeById`, `extractCharacterMeta`, `mapCharacters` |

Library behaviour that the code only calls into is passed in as a function parameter and never interpreted:

| library call | parameter |
|---|---|
| JavaScript string-to-number parsing | `numStr: string -> Option<real>`, where `None` means not finite |
| `Date.parse` | `parse: string -> Option<int>`, where `None` means NaN |
| `encodeURIComponent(JSON.stringify(·)).length` | `encodedLength` |
| `Math.random()` | draws in `[0, 1)` |
| the random id suffix | `suffix` |

## Model

| member | source | states |
|---|---|---|
| Catalog.ItemName | src/App.js:109-123 | English always gets `name`. Another language gets its translation when that is non-empty and `name` when it is empty. The display name is empty only when `name` is. |
| Json.AsString | src/App.js:218 | A field reads as a string exactly when it holds a JSON string, and that string is what it holds. |
| Json.ToNumber | src/App.js:197-206 | `Number()` keeps a JSON number as is. A missing field and an object are not finite numbers. |
| Json.StringsOfStrs | src/App.js:208-209 | Reading back the strings of an all-string array gives the original list. |
| SettingsCodec.RollDuration | src/App.js:59-62 | The three roll speeds last 7400, 9200 and 11200 ms. |
| SettingsCodec.ParseSpeed | src/App.js:271 | Only "normal", "long" and "epic" are accepted as a speed, and each decodes to the speed of that name. |
| SettingsCodec.ClampHistoryLimit | src/App.js:197-198 | The result is always 30, 60 or 90. It is the input's numeric value when that is one of them and 60 otherwise. |
| SettingsCodec.ClampVolume | src/App.js:200-206 | A non-finite input gives the fallback. A finite one lands in [0,1]: in range unchanged, below 0 gives 0, above 1 gives 1. |
| SettingsCodec.NormalizeSettings | src/App.js:253-274 | The result is well formed, and each field is decoded on its own. A boolean splash flag is kept and anything else gives true. A known roll speed is kept and anything else gives "long". The history limit is `ClampHistoryLimit` of the stored value. A volume that reads as a number is clamped into [0,1] whatever the legacy flags say. A volume that does not read as a number takes its default: 0 when legacy `soundEnabled` (UI, tick) or `backgroundMusicEnabled` (music) is `false`, the stock default otherwise. A non-object gives the default settings. |
| SettingsCodec.SettingsRoundTrip | src/App.js:253-274 | Normalizing the encoding of well-formed settings gives them back. |
| SettingsCodec.NormalizeSettingsIdempotent | src/App.js:253-274 | Normalizing is idempotent across an encode and decode cycle. |
| FilterCodec.UniqueStrings | src/App.js:208-209 | The result has no duplicates and holds exactly the strings of the array, in order of first occurrence. A non-array gives []. |
| FilterCodec.Rarities | src/App.js:213-215 | Only the numbers 4 and 5 survive, and every 4 or 5 of the input does. |
| FilterCodec.RarityFacet | src/App.js:213-215 | A stored array gives exactly its 4s and 5s, in order with repeats. Anything else gives no rarities. |
| FilterCodec.RaritiesAreTheFilter | src/App.js:213-215 | The decoded rarities are exactly the input elements that are the numbers 4 or 5, in order and with duplicates. |
| FilterCodec.ViewModeOf | src/App.js:219 | The view mode is "list" exactly when the field is the string "list". |
| FilterCodec.NormalizeCharacterFilters | src/App.js:211-224 | The result is well formed (rarities within {4,5}, string facets without duplicates). A string search is kept and anything else gives "". The view mode is "list" iff the stored one is. The rarities are exactly the 4s and 5s of a stored array, in order with repeats, and none otherwise. Weapons and elements are the stored arrays' distinct strings. A non-object gives the defaults. |
| FilterCodec.RaritiesRoundTrip | src/App.js:213-215 | A rarity list drawn from {4,5} survives a decode unchanged, duplicates included. |
| FilterCodec.UniqueStringsRoundTrip | src/App.js:208-209 | A duplicate-free string list survives a decode unchanged. |
| FilterCodec.CharacterFiltersRoundTrip | src/App.js:211-224 | Well-formed character filters survive an encode and decode cycle. |
| FilterCodec.NormalizeCharacterFiltersIdempotent | src/App.js:211-224 | Normalizing character filters is idempotent. |
| FilterCodec.RaritiesKeepDuplicates | src/App.js:213-215 | A concrete case: [5,5,3] decodes to [5,5], because rarities are not deduplicated. |
| FilterCodec.StringFacetsDropDuplicates | src/App.js:208-209 | Unlike rarities, a string repeated in a facet array decodes to a single copy. |
| FilterCodec.NormalizeBossFilters | src/App.js:226-242 | The result is well formed. A string search is kept and anything else gives "". The view mode is "list" iff the stored one is. Groups are the stored array's distinct strings. Name shapes are those distinct strings filtered to {single, multi} in their order, and name lengths those filtered to {short, medium, long}. A non-object gives the defaults. |
| FilterCodec.BossFiltersRoundTrip | src/App.js:226-242 | Well-formed boss filters survive an encode and decode cycle. |
| FilterCodec.NormalizeBossFiltersIdempotent | src/App.js:226-242 | Normalizing boss filters is idempotent. |
| FilterCodec.StageFilterOf | src/App.js:249 | The stage filter is characters, or bosses, exactly when the field is that string, and "all" otherwise. |
| FilterCodec.NormalizeHistoryFilters | src/App.js:244-251 | String bounds are kept and anything else gives "". The stage is `StageFilterOf` the stored stage: "characters" or "bosses" when it is one of those, all stages otherwise. A non-object gives the defaults. |
| FilterCodec.HistoryFiltersRoundTrip | src/App.js:244-251 | Any history filter survives an encode and decode cycle. |
| HistoryCodec.StageOf | src/App.js:287 | Only "characters" and "bosses" decode to a stage, each to its own. |
| HistoryCodec.RarityOf | src/App.js:304 | The rarity is 4 exactly when the field is the number 4, 5 exactly when it is the number 5, and none otherwise. |
| HistoryCodec.NormalizeEntry | src/App.js:283-307 | An entry is kept exactly when it is an object with a known stage, a non-empty string item id and a non-empty string timestamp that parses. A kept entry keeps a string id, and its names and group are the string fields or "" when they are not strings. Its rarity follows `RarityOf`. |
| HistoryCodec.NormalizeHistoryEntries | src/App.js:276-310 | A non-array gives []. Otherwise there is one output entry per accepted input, and the entry decoded from each accepted input is in the output. Every kept entry is valid. |
| HistoryCodec.AcceptedEntryKept | src/App.js:281-309 | The entry decoded from an accepted element at any position is in the normalized list. |
| HistoryCodec.NormalizeListAppend | src/App.js:281-309 | Normalizing a concatenation is the concatenation of the normalized parts, so kept entries stay in input order. |
| HistoryCodec.EntryRoundTrip | src/App.js:283-307 | A valid entry survives an encode and decode cycle. |
| HistoryCodec.HistoryRoundTrip | src/App.js:276-310 | A ledger of valid entries survives an encode and decode cycle. |
| HistoryCodec.NormalizeHistoryIdempotent | src/App.js:276-310 | Normalizing history is idempotent. |
| HistoryCodec.NewEntrySurvivesReload | src/App.js:1931-1945 | An entry created on roll completion for a winner with an id and a parsing timestamp is itself valid, so it is kept on the next load. |
| HistoryCodec.TrimForCookie | src/App.js:312-322 | The loop returns exactly `CookiePrefix`: the longest prefix of the ledger that fits the 3300 budget, or [] when none does. |
| HistoryCodec.CookiePrefix | src/App.js:312-322 | The result is a prefix of the ledger. It is empty or fits the budget, and every longer prefix is over it. |
| HistoryCodec.CookiePrefixOfFitting | src/App.js:315-318 | A ledger that fits the budget is saved whole. |
| HistoryCodec.CookiePrefixIdempotent | src/App.js:312-322 | Trimming a trimmed ledger changes nothing. |
| Filters.NameShape | src/App.js:324-327 | A name is "multi" exactly when its trimmed form has inner whitespace, that is, more than one word. It is "single" otherwise. |
| Filters.NameLength | src/App.js:329-338 | The result is "short" iff the trimmed UTF-16 length is ≤ 10, "medium" iff 11..18, and "long" iff > 18. |
| Filters.MatchesCharacter | src/App.js:340-356 | An item matches exactly when each non-empty facet holds its rarity, weapon and element and the search admits its display name. With every facet empty and a blank search every item matches. |
| Filters.MatchesBoss | src/App.js:358-379 | An item matches exactly when each non-empty facet holds its group, name shape and name length and the search admits its display name. |
| Filters.DefaultsShowAllCharacters | src/App.js:27-33 | The default character filters admit every character. |
| Filters.DefaultsShowAllBosses | src/App.js:35-41 | The default boss filters admit every boss. |
| Filters.ClearingFacetWidens | src/App.js:340-356 | Emptying one facet never hides an item that was shown. |
| Filters.ToggleFacet | src/App.js:575-583 | Toggling puts the value in exactly when it was absent and leaves the other chips. |
| Filters.ToggleTwiceRestores | src/App.js:575-583 | Toggling an absent chip on and off restores the list. |
| Roulette.MakeRepeated | src/App.js:128-141 | [] gives []. Otherwise the length is n·max(6, ⌈48/n⌉) ≥ 48 and card i is pool[i mod n]. |
| Roulette.Pick | src/App.js:143 | The random pick is a member of the pool. |
| Roulette.LandingSlot | src/App.js:1455 | The landing slot lies in 44..51. |
| Roulette.BuildRollItems | src/App.js:145-148 | The strip has length max(52, slot+10) ≥ 52. The slot holds the winner and every other card is a random pool pick. |
| Roulette.Init | src/App.js:1383-1385 | A fresh roulette is idle with no result. |
| Roulette.SetItems | src/App.js:1383-1385 | A pool change rebuilds the strip and leaves the spin state alone. |
| Roulette.Roll | src/App.js:1449-1470 | Roll is a no-op on an empty pool or mid-spin. Otherwise it starts spinning with the result cleared and the tick index reset. The winner is from the pool, the slot is in 44..51, the strip has ≥ 52 pool cards and the winner sits on the slot. |
| Roulette.Observe | src/App.js:1426-1447 | Outside a spin the recorded index is forgotten. A tick fires exactly when a spin is running, an index was recorded and the new index differs. |
| Roulette.Frame | src/App.js:1474-1490 | Before the duration nothing changes. After it the spin stops and the tick index is reset. The pending winner becomes the result and is reported. |
| Roulette.ClearSelection | src/App.js:1388-1390 | The result is cleared. With a pool and no spin, the wheel is then in the state in which the idle drift effect runs. |
| Roulette.SpinLandsOnWinner | src/App.js:1449-1490 | Roll then landing reports the card on the landing slot and shows it as the result. A later frame reports nothing again. |
| Roulette.TicksCountIndexChanges | src/App.js:1426-1447 | Over a spin the number of ticks equals the number of index changes between consecutive observations. |
| Pool.Toggle | src/App.js:562-573 | Toggling flips the membership of that id only. |
| Pool.ToggleTwice | src/App.js:562-573 | Toggling twice restores the selection. |
| Pool.VisibleCharacters | src/App.js:1656-1661 | The visible characters are exactly the catalogue items that match, in catalogue order. |
| Pool.VisibleBosses | src/App.js:1662-1667 | The same for bosses. |
| Pool.SelectVisible | src/App.js:585-592 | The result is the previous selection plus every visible id. Ids outside the visible set are untouched. |
| Pool.DeselectVisible | src/App.js:594-598 | The result is the previous selection minus every visible id. Ids outside the visible set are untouched. |
| Pool.SelectAll | src/App.js:718 | The selection becomes exactly the catalogue's ids. |
| Pool.DeselectAll | src/App.js:722 | The selection becomes empty. |
| Pool.OnCatalogLoad | src/App.js:1626-1640 | With no persisted selection the result is all available ids. Otherwise it is the previous selection intersected with the available ids. |
| Pool.OnCatalogLoadStable | src/App.js:1626-1640 | Loading the same catalogue again changes nothing. |
| Pool.PruneScenario | src/App.js:1626-1640 | A concrete case: a persisted {a,b} over a catalogue {b,c} becomes {b}. |
| Pool.EffectivePool | src/App.js:1670-1678 | The pool is the filtered items whose id is selected, in catalogue order. |
| Pool.SelectVisibleFillsPool | src/App.js:585-592 | After select-visible the pool is the whole visible list. |
| Pool.DeselectVisibleEmptiesPool | src/App.js:594-598 | After deselect-visible the pool is empty. |
| History.NewEntry | src/App.js:1933-1943 | The entry records the stage, item id and timestamp. The name falls back to the id, the Russian name to the name and then the id, and a zero or missing rarity is recorded as none. |
| History.Append | src/App.js:1945 | The new entry is first and the length is within the limit. Below the limit nothing is lost; at the limit exactly the oldest entry is dropped. |
| History.Retruncate | src/App.js:1653 | The result is a prefix within the limit, and a ledger already within it is unchanged. |
| History.RetruncateTwice | src/App.js:1653 | Two re-truncations are one to the smaller limit. |
| History.DeleteEntry | src/App.js:1954-1956 | Exactly the entries with that id are removed. Every other entry keeps its order and its number of copies. |
| History.DeleteEntryIdempotent | src/App.js:1954-1956 | Deleting twice is deleting once. |
| History.Clear | src/App.js:1963-1965 | Clearing leaves an empty ledger. |
| History.View | src/App.js:1703-1724 | The view is the order-preserving sub-ledger of entries that match the stage, have a parsing timestamp and lie within the inclusive day bounds. Each such entry appears as often as in the ledger, and no other entry appears. |
| History.DeleteViewed | src/App.js:1957-1961 | Every entry whose id is in view is removed. Every other entry is kept in order with its number of copies. |
| History.DeleteViewedEmptiesView | src/App.js:1957-1961 | After deleting the viewed entries the view is empty. |
| Boot.LangOf | src/App.js:399 | The language is the cookie's when that is a supported code and "ru" otherwise. |
| Boot.ThemeOf | src/App.js:400 | The theme is the cookie's when that is supported and "dark" otherwise. |
| Boot.SectionOf | src/App.js:406 | The section is always a known id: the cookie's when known, "dashboard" otherwise. |
| Boot.SettingsOf | src/App.js:381-392 | The settings are well formed, and defaults when there is no cookie. |
| Boot.HistoryOf | src/App.js:394-397 | The history is valid and within the limit, and [] when there is no cookie. |
| Boot.LoadInitialState | src/App.js:381-417 | Whatever the cookies hold, start-up gives well-formed settings, a known section, duplicate-free selections and a valid history within the configured limit. |
| Boot.MissingCookieDefaults | src/App.js:381-417 | Each missing cookie leaves its slice at the defaults: "ru", "dark" and default settings; the dashboard and no roll order; no persisted selection; an empty ledger. |
| Boot.NoCookiesGiveDefaults | src/App.js:381-417 | A first visit boots into the default state. |
| Boot.ReadProperty | src/App.js:399-413 | A property read fails exactly on `null`. |
| Boot.LoadInitialStateAsWritten | src/App.js:381-417 | The loader as written throws exactly when the settings, UI or selection cookie holds JSON `null`. |
| Boot.NullSettingsCookieThrows | src/App.js:381-399 | A `null` settings cookie makes the loader as written throw, while the corrected loader boots with default settings. |
| Boot.NullSettingsLikeMissing | src/App.js:381-399 | In the corrected loader a settings cookie holding `null` boots exactly like a missing one. |
| Boot.NullUiLikeMissing | src/App.js:382-406 | The same for the UI cookie. |
| Boot.NullSelectionLikeMissing | src/App.js:387-412 | The same for the selection cookie. |
| Boot.SettingsSliceRestored | src/App.js:1967-1973 | Well-formed saved settings are restored on reload. |
| Boot.LanguageAndThemeRestored | src/App.js:1967-1973 | The saved language and theme are restored on reload. |
| Boot.UiSliceRestored | src/App.js:1975-1980 | The saved section and roll order are restored. |
| Boot.SelectionSliceRestored | src/App.js:1994-1999 | The saved selections are restored and marked as persisted. |
| Boot.HistorySliceRestored | src/App.js:2001-2014 | A valid history within the limit comes back as the longest prefix that fitted the cookie budget. |
| Boot.ReloadRestoresState | src/App.js:381-417 | Loading what the cookie writers saved gives back any well-formed state, with the history cut to the prefix that fitted the cookie. |
| Boot.SaveCookies | src/App.js:1967-2014 | The history cookie holds the encoded entries of the longest prefix of the ledger that fits the budget. Every longer prefix is over it. |
| Boot.ReloadWithinBudget | src/App.js:381-417 | When the whole ledger fits the budget, a save and reload gives back the state exactly. |
| Boot.TrimKeepsRestorable | src/App.js:2001-2014 | Trimming the history for the cookie keeps a well-formed state well formed. |
| Boot.ReloadIsStable | src/App.js:381-417 | A second save and reload gives back the state the first reload produced, so trimming loses entries only once. |
| CatalogText.CollapseSpaces | src/services/genshinApi.js:120 | The result has only plain spaces as whitespace and never two in a row. It starts with whitespace exactly when the input does. |
| CatalogText.NormalizeSpaces | src/services/genshinApi.js:120 | The result has no leading or trailing whitespace, no two adjacent whitespace characters, and no whitespace other than ' '. |
| CatalogText.NormalizeSpacesJoinsWords | src/services/genshinApi.js:120 | The result is the whitespace-separated words of the input joined by single spaces. |
| CatalogText.NormalizeSpacesOfNormal | src/services/genshinApi.js:120 | A string that is already normal comes back unchanged. |
| CatalogText.NormalizeSpacesIdempotent | src/services/genshinApi.js:120 | Normalizing spaces twice is normalizing once. |
| CatalogText.RemoveAllAbsent | src/services/genshinApi.js:139 | Removing a tag that cannot occur changes nothing. |
| CatalogText.RemoveAllTrailing | src/services/genshinApi.js:139 | Removing a tag that follows text in which it cannot start leaves that text. |
| CatalogText.Keyify | src/services/genshinApi.js:136-141 | A key holds only [a-z0-9] and is no longer than the input. |
| CatalogText.KeyifyIdempotent | src/services/genshinApi.js:136-141 | Keyifying a key gives the same key. |
| CatalogText.KeyifyOfKey | src/services/genshinApi.js:136-141 | A string of [a-z0-9] is its own key. |
| CatalogText.KeyifyWithoutTag | src/services/genshinApi.js:136-141 | Without a "(" the key is exactly the [a-z0-9] characters of the lower-cased input, in order. |
| CatalogText.KeyifyDropsTag | src/services/genshinApi.js:136-141 | A trailing "(local legend)" tag does not change the key. |
| CatalogText.DashRuns | src/services/genshinApi.js:146 | The result holds only [a-z0-9-] and never "--". It starts with a dash exactly when the input starts with a separator. |
| CatalogText.DashRunsKeepsText | src/services/genshinApi.js:146 | Every letter and digit is kept, in order. |
| CatalogText.DashRunsWordPrefix | src/services/genshinApi.js:146 | A run of [a-z0-9] passes through unchanged. |
| CatalogText.DashRunsSeparator | src/services/genshinApi.js:146 | A whole run of separators becomes one dash. |
| CatalogText.StripDashes | src/services/genshinApi.js:147 | Stripping the edge dashes gives a slug, and leaves a slug unchanged. |
| CatalogText.StripDashesKeepsText | src/services/genshinApi.js:147 | Stripping the edge dashes keeps every letter and digit. |
| CatalogText.ToSlug | src/services/genshinApi.js:143-147 | A slug holds only [a-z0-9-], never starts or ends with '-', and never contains "--". |
| CatalogText.ToSlugIdempotent | src/services/genshinApi.js:143-147 | Slugifying a slug gives the same slug. |
| CatalogText.ToSlugOfSlug | src/services/genshinApi.js:143-147 | A slug is its own slug. |
| CatalogText.ToSlugKeepsText | src/services/genshinApi.js:143-147 | The slug holds exactly the letters and digits of the lower-cased input, in order. |
| CatalogText.ToSlugJoinsWords | src/services/genshinApi.js:143-147 | Two [a-z0-9] words with any run of separators between them give the words joined by one dash. |
| CatalogText.UniqueUrls | src/services/genshinApi.js:151 | The result has no "" and no duplicates. A URL is in it iff it is non-empty and in the input, in order of first occurrence. |
| CatalogMerge.PickLocalizedName | src/services/genshinApi.js:157-165 | The result is one of the three names. A genuine translation on the left wins. The result is a translation iff either side is. It is empty only when all three are. |
| CatalogMerge.MergeBossEntries | src/services/genshinApi.js:167-182 | Id, rarity, weapon, element and group come from the candidate. Name and image are base-first. Splash is the base's, then the candidate's, then the merged image. Each localized name is picked by `PickLocalizedName`. The fallback lists are the deduplicated non-empty union, base first. |
| CatalogMerge.MergeWithSelf | src/services/genshinApi.js:167-182 | Merging a settled entry with itself gives it back. |
| CatalogMerge.MergeKeepsBaseFallbacks | src/services/genshinApi.js:179-180 | A base entry's clean image and splash fallback lists stay prefixes of the merged lists. |
| CatalogMerge.UniqueUrlsKeepsFront | src/services/genshinApi.js:151 | A clean list stays a prefix of the deduplicated union with any other list. |
| CatalogMerge.KeptIdsAreNonEmptyIds | src/services/genshinApi.js:188-190 | The ids that take part are exactly the non-empty ones, in input order. |
| CatalogMerge.MergeAt | src/services/genshinApi.js:196 | A merge into an existing slot keeps every id and slot position and changes only that slot. |
| CatalogMerge.DedupeById | src/services/genshinApi.js:184-200 | The output ids are the non-empty input ids, each once, in order of first occurrence. Which record each id ends up with is stated by DedupeByIdMerges. |
| CatalogMerge.DedupeByIdMerges | src/services/genshinApi.js:189-196 | Every output record is the fold of all input records with its id: the first one, with each later one merged into it by `mergeBossEntries`, in input order. |
| CatalogMerge.NewIdNotKept | src/services/genshinApi.js:184-200 | An id absent from the input never appears in the output. |
| CatalogMerge.DedupeByIdKeepsUnique | src/services/genshinApi.js:184-200 | An item whose id occurs once appears in the output unchanged. |
| CatalogMerge.ApplyCategory | src/services/genshinApi.js:268-276 | A category never changes the region and only ever sets rarity to 4 or 5. |
| CatalogMerge.ApplyCategoryEffect | src/services/genshinApi.js:268-276 | "5" or "4" sets that rarity. `ELEMENT_X` sets the element to X, and `WEAPON_*` sets the weapon to the key. Any other key changes nothing. |
| CatalogMerge.ApplyCategoryTwice | src/services/genshinApi.js:258-277 | Being listed twice in a category is the same as once. |
| CatalogMerge.AddCategory | src/services/genshinApi.js:258-277 | Exactly the category's ids are added or updated, and every other entry is untouched. |
| CatalogMerge.ExtractCharacterMeta | src/services/genshinApi.js:249-281 | An id has metadata exactly when some array category lists it. |
| CatalogMerge.MetaOf | src/services/genshinApi.js:259-276 | Against the per-id reference fold, the region is "Unknown" and the rarity is 4 or 5. A never-listed id has the defaults (4, NONE, one-handed sword). |
| CatalogMerge.ExtractMatchesMetaOf | src/services/genshinApi.js:249-281 | The index built in one pass agrees, id by id, with the reference fold. |
| CatalogMerge.RarityFromLastListing | src/services/genshinApi.js:268-270 | An id's rarity is set by the last rarity category that lists it. |
| CatalogMerge.NameFromMap | src/services/genshinApi.js:154 | A non-empty translation is used, and otherwise the fallback. |
| CatalogMerge.CandidatesSplit | src/services/genshinApi.js:305-308 | A non-empty candidate list is its first candidate followed by the rest. The first candidate is empty iff every URL is. A non-empty first candidate is one of the URLs and is not among the rest. The rest has no empty URL and no duplicates. |
| CatalogMerge.HeadIsFirstUsable | src/services/genshinApi.js:151 | The first candidate of `uniqueUrls` is the first non-empty URL of the list: every URL before it is empty. |
| CatalogMerge.BuildCharacter | src/services/genshinApi.js:288-310 | The id and English name come from the source. Each localized name is `getNameFromMap` of its map. An indexed rarity of 0 gives 4, and any other is kept. An indexed empty element gives "NONE", an empty weapon gives the one-handed sword, and non-empty ones are kept. An unindexed id gets all three defaults. The image is the first non-empty image URL, and empty iff every image URL is. The image fallbacks are the remaining distinct image URLs. The splash is the first splash candidate (splash URLs, then image candidates), or else the image. The splash fallbacks are the remaining splash candidates. |
| CatalogMerge.SortDesc | src/services/genshinApi.js:312-315 | The sort output is ordered by descending rarity and is a permutation of its input. |
| CatalogMerge.MapCharacters | src/services/genshinApi.js:283-318 | The output is, as a multiset, exactly the built characters that have an image. It is ordered by descending rarity, so all 5-star characters precede all 4-star ones. |
| CatalogMerge.MapCharactersKeepsPictured | src/services/genshinApi.js:311 | A built character comes out exactly when it has an image. |

## Left out

- Cookie I/O (`getCookie`, `setCookie`), the expiry string and `JSON.parse`. A cookie is given as an already decoded `Option<Json>`, where `None` means absent or unparseable.
- `Date.parse`, `encodeURIComponent`, string-to-number parsing and `new Date().toISOString()` are function parameters. Their semantics are not modelled.
- `Math.random` and `performance.now` are parameters: draws in [0,1) and elapsed milliseconds.
- Float values that overflow to Infinity in `Number()` are assumed to come out of `numStr` as `None`.
- Animation: `easeOutCubic`, the pixel arithmetic of `translateX` and `centerOnIndex`, the idle drift loop (including its rebuild of the strip with `makeRepeatedItems` once a result is cleared) and card resizing. These are floating point. Only the integer card index the tick watcher sees is modelled.
- The tick watcher's reset when the viewport element is missing. A mounted viewport is assumed.
- Audio, React components, scroll restoration, translations and labels. These are side effects and view glue.
- The clearing of a stage result whose item left the pool (src/App.js:1680-1690). It is a view-level effect and is not part of this model.
- The network layer: retries, fetches, Fandom thumbnails and the boss list builders. These are asynchronous I/O.
- `cleanWikiText` and `parseLegendTemplate`. They are wiki-markup scraping and are not part of this model.
- `getCharacterImageCandidates` and `getCharacterSplashCandidates`. Their field lists are given to `BuildCharacter` as ready URL lists.
- CatalogMerge.MapCharacters: ties in rarity keep input order instead of `localeCompare` on names, because locale collation is not modelled.
- Text.Lower: lower-casing is ASCII only. Unicode case mapping is locale data that is not modelled.
- CatalogMerge.ExtractCharacterMeta: category order is given as a sequence in JavaScript enumeration order, and ids that are inherited object properties (such as "constructor") are not special-cased.
- The `slug` field of a built character is omitted because it always equals the id.
- Selections are sets. The order of the persisted arrays is not modelled, because it only follows JavaScript `Set` insertion order.
- CatalogMerge.ApplyCategory: its own contract only bounds the rarity, and the exact update rule is stated by `CatalogMerge.ApplyCategoryEffect`.

## Findings

| source | as written | input that shows it | evidently intended | confidence | as-written member | corrected member |
|---|---|---|---|---|---|---|
| src/App.js:382-413 | `readCookieJson` returns whatever the cookie parses to, so a cookie holding `null` reaches `settingsCookie.lang`, `uiCookie.activeSection` and `selectedCookie.characters`, which throw on `null` and stop the app from booting | a `settings` cookie whose value is the JSON text `null` | a `null` cookie boots like a missing one, with the defaults of its slice | not executed | Boot.LoadInitialStateAsWritten, Boot.NullSettingsCookieThrows | Boot.LoadInitialState, Boot.NullSettingsLikeMissing |
