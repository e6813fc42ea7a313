# deedfind: the search engine, in Dafny

deedfind is a single-page tool for looking up property deed records. The
records are a fixed list of `DeedEntry` values, generated offline from a
spreadsheet. This project models and proves properties of the search core:

- **the record key and de-duplication.** `getDeedEntryKey` joins six fields
  with `|`. `deduplicateDeedEntries` keeps the first record for each key.
- **the single-query search** `performSingleSearch` of the current
  application (`App.tsx`). It has five modes: general, Hajry, combined
  identifier and building, Mazaya, and an exact `excelFile` branch. No path
  reaches that branch: `handleSearch` returns early in the `excelFile` mode
  (App.tsx:229), and the bulk search filters with its own rules
  (App.tsx:394-422).
- **the bulk spreadsheet search** `handleExcelSearch` of the current
  application. It finds the Hajry, Mazaya and Building No. columns. Each row
  is read as one query under a priority of five rules (with the one-way
  `1142` to `OMZ1` building alias). The hits are collected in a `Map` by
  key, so the last record set for a key wins.
- **the session state and the event handlers** of the component. That is,
  the effect of a search, a mode change, editing a query, choosing and
  reading a file, a bulk search and a change of table view.
- **the older variant** `App-working.tsx`. Its matching is substring only,
  in three modes. Its bulk search runs the single search, under the current
  mode, on every cell of the selected columns (the older interface has no
  control that selects one). Lemmas compare the two engines.
- **the offline converter** `scripts/convert-excel-to-data.js`. It maps a
  spreadsheet row to a record (Hajry goes to `mazaya` and Mazaya to
  `title`). `formatValue` writes each field as a TypeScript literal. A model
  of how such a literal is read back lets the project state what the
  generated file holds.

Layout, one module per file:

- `strings.dfy`, `seqs.dfy`, `ordered_maps.dfy`: the JavaScript built-ins the
  code relies on. These are ASCII `toLowerCase`, `includes`, `trim`, `join`,
  `filter` and an insertion-ordered `Map`.
- `types.dfy`, `deed_data.dfy`: `types.ts`, and `generalSearchFields` as the converter writes it (`scripts/convert-excel-to-data.js:59-61`). It is the order of the key parts, as `DeedKeys.KeyParts` states.
- `deed_keys.dfy`: the key, de-duplication, and the key-indexed union.
- `grid.dfy`: the header-row-plus-data-rows grid an upload produces.
- `search.dfy`, `bulk.dfy`, `session.dfy`, `app.dfy`: the current application.
- `working_search.dfy`, `working_session.dfy`, `working_app.dfy`: the older
  variant.
- `convert.dfy`: the converter.

Pure code is modelled as functions and lemmas. The Map-filling loops are
methods with loop invariants, each proved equal to a specification function
whose properties are lemmas:

- `deduplicateDeedEntries`;
- both bulk searches;
- the `forEach` that sets results into the map.

Each component is a class with one field per `useState`, and one setter
method per field that changes that field alone. Each handler is a method
that calls the setters in the order the handler does and ensures the new
state is the matching pure transition of the old state. The `Handle…` methods also keep the invariant `Valid()`:

- the results are store records;
- no two results share a key;
- no bulk search is half done;
- no column is selected.

Every handler reads the values of the render it was created in. So each
transition reads the old state only, and React's batching of setters does
not change the outcome.

Three behaviours of the code a reader may not expect:

- The building alias is one-way. A bulk query `1142` also finds `OMZ1`, but
  a query `OMZ1` does not find `1142` (`Bulk.AliasIsOneWay`). `referenceDeed`
  takes no part in it.
- A bulk search whose rows were all skipped still reports "not found". The
  code sets `notFound` to whether the union is empty, and never looks at
  whether a row was searched (`Session.ExcelSearchShowsUnion`).
- The exact `excelFile` branch of `performSingleSearch` is dead code. Its
  only caller, `handleSearch`, returns early in that mode
  (`Session.SearchIgnoredInBulkModeAndFullView`), and the bulk search never
  calls it. The model keeps the branch and proves what it would
  do (`Search.ExcelFileIsExact`); the bulk lookup is `Bulk.RuleMatches`.

## Model

| member | source | states |
|---|---|---|
| Types.Truthy | types.ts:2-9 | an optional, nullable field is truthy exactly when it holds a non-empty string; absent and `null` are the same `None` |
| DeedKeys.KeyParts | App.tsx:15-24 | the six key parts follow `generalSearchFields` order, a missing field giving `"null"` |
| DeedKeys.KeyInjective | App.tsx:15-25 | on records whose fields hold no `|` and are never the text `"null"`, equal keys mean equal records |
| DeedKeys.NullSentinelCollides | App.tsx:24 | a missing field and the text `"null"` give the same key, so the key is not injective in general |
| DeedKeys.SeparatorCollides | App.tsx:24 | a `|` moved across a field boundary gives the same key for a different record |
| DeedKeys.DedupKeepsFirstOccurrences | App.tsx:27-36 | the de-duplicated list is the order-preserving subsequence of the input at the positions where a key occurs first |
| DeedKeys.DedupMembers | App.tsx:27-36 | every de-duplicated record comes from the input |
| DeedKeys.DedupKeysDistinct | App.tsx:27-36 | no two de-duplicated records share a key |
| DeedKeys.DedupCoversKeys | App.tsx:27-36 | every input key is the key of some de-duplicated record |
| DeedKeys.DedupSameKeys | App.tsx:27-36 | input and output have exactly the same set of keys |
| DeedKeys.DedupKeepsKeysOf | App.tsx:27-36 | the key of every input record is among the keys of the output |
| DeedKeys.DedupEmptyIff | App.tsx:27-36 | the output is empty exactly when the input is |
| DeedKeys.DedupOfDistinct | App.tsx:27-36 | a list without repeated keys passes through unchanged |
| DeedKeys.DedupIdempotent | App.tsx:27-36 | de-duplicating twice is de-duplicating once |
| DeedKeys.DeduplicateDeedEntries | App.tsx:27-36 | the `has`/`set` loop over a `Map` returns exactly the specification `Dedup` |
| DeedKeys.SetEach | App.tsx:428-431 | setting each result under its key extends the map built from the earlier hits by exactly these results |
| DeedKeys.UnionOrder | App.tsx:370 | the union map lists its keys in first-seen order |
| DeedKeys.UnionEntries | App.tsx:428-431 | each key of the union map holds the last record set under it |
| DeedKeys.UnionKeysFirstSeen | App.tsx:435 | the union's records carry the input keys once each, in first-seen order |
| DeedKeys.UnionTakesLastValue | App.tsx:428-435 | each record of the union is the last input record with its key |
| DeedKeys.UnionKeysDistinct | App.tsx:428-435 | the union never repeats a key |
| DeedKeys.UnionMembers | App.tsx:428-435 | every record of the union comes from the input |
| DeedKeys.UnionIsDedupWhenKeyInjective | App.tsx:27-36 | when records sharing a key are equal, the union and de-duplication give the same list |
| DeedKeys.UnionDiffersFromDedup | App.tsx:430 | for two different records with one key, de-duplication keeps the first and the union the second |
| DeedKeys.DedupOfCollision | App.tsx:27-36 | of two records with one key, de-duplication keeps only the first |
| DeedKeys.UnionOfCollision | App.tsx:430 | of two records with one key, the key-indexed union keeps only the second |
| OrderedMaps.OrderedMap.Set | App.tsx:430 | `set` replaces the value of a present key in place and appends a new key at the end |
| OrderedMaps.InsertAppends | App.tsx:32 | setting a new key appends its value to the values |
| Strings.LowerFolds | App.tsx:179-180 | `toLowerCase` leaves no ASCII capital, maps each capital to its small letter and nothing else, is idempotent and distributes over concatenation |
| Strings.Trim | App.tsx:232-233 | a trimmed string neither starts nor ends with white space |
| Strings.TrimEmptyIff | App.tsx:232-233 | a string trims to "" exactly when it is white space only |
| Strings.JoinInjective | App.tsx:24 | joining equally long lists whose parts avoid the separator is injective |
| Strings.IntToString | App.tsx:376 | a number's text is non-empty and holds no white space |
| Seqs.FilterSelectsExactly | App.tsx:173 | `filter` keeps exactly the elements satisfying the predicate, in their order |
| Seqs.FilterMembers | App.tsx:173 | an element is in the filtered list exactly when it is in the list and satisfies the predicate |
| Seqs.FilterCongruent | App-working.tsx:107 | filters with predicates that agree on the list give the same result |
| Seqs.FilterNone | App-working.tsx:127 | a filter rejecting every element returns nothing |
| Search.PerformSingleSearch | App.tsx:171 | with both terms empty the search returns nothing; it never returns more records than the store holds |
| Search.SearchSelectsInStoreOrder | App.tsx:170-225 | the search returns, in store order, the records at exactly the positions whose record the mode's predicate accepts |
| Search.SearchMembers | App.tsx:170-225 | a record is found exactly when it is in the store, a term is given, and the mode accepts it |
| Search.EqualOrIncludesIsIncludes | App.tsx:175-183 | "lower-cased equal or lower-cased contains" is lower-cased containment; a null or empty field never matches |
| Search.GeneralIsSomeFieldContains | App.tsx:174-184 | the general mode is containment in one of the six fields, in `generalSearchFields` order |
| Search.ModesInspectOneField | App.tsx:185-221 | `hajrySearch` and `excelFile` depend on `mazaya` only, `mazayaSearch` on `title` only, none on the building term |
| Search.CombinedMode | App.tsx:198-216 | the combined mode is the general test and the building-contains test, where an empty side counts as true |
| Search.ExcelFileIsExact | App.tsx:191-197 | `excelFile` needs equality: `"10"` finds `mazaya` `"108"` under `hajrySearch` but not under `excelFile` |
| Search.ExcelFileIsCaseSensitive | App.tsx:191-197 | `excelFile` is case-sensitive where `hajrySearch` is not |
| Grid.IndexOf | App.tsx:348-350 | `indexOf` returns the first header equal to the name, or -1 exactly when there is none |
| Grid.CellText | App.tsx:376-378 | a non-empty cell value comes from a present column holding a truthy cell, and is trimmed |
| Grid.NumberCellIsSearchValue | App.tsx:376-378 | a non-zero number cell reads as its decimal text |
| Grid.BlankCellIsEmpty | App.tsx:376-381 | a white-space-only text cell reads as "", the same as an empty one |
| Bulk.DetectColumns | App.tsx:348-353 | each recognised column index is -1 exactly when no header has that name |
| Bulk.RuleFor | App.tsx:380-424 | the five rules, strongest first: each rule is chosen exactly under its condition, and a row without values is skipped |
| Bulk.SearchTermCount | App.tsx:371-385 | the count of searched rows is at most the number of rows |
| Bulk.MatchedRowCount | App.tsx:372-427 | the count of matched rows is at most the number of rows |
| Bulk.SearchTermCountIsFilter | App.tsx:371-385 | `totalSearchTerms` is the number of rows some rule applies to |
| Bulk.MatchedRowCountIsFilter | App.tsx:372-427 | `foundMatches` is the number of rows with at least one hit |
| Bulk.MatchedRowsWereSearched | App.tsx:371-427 | `foundMatches` never exceeds `totalSearchTerms`, since a skipped row has no hits |
| Bulk.BulkSearch | App.tsx:369-435 | the row loop returns the key union of all row hits, and its two counters equal the counts of searched and of matched rows |
| Bulk.SearchRow | App.tsx:380-432 | one row adds exactly its hits to the map; it counts as searched exactly when a rule applies to it, and as matched exactly when it has hits |
| Bulk.RuleResultsMembers | App.tsx:394-422 | a rule's results are the store records it matches |
| Bulk.HajryOverridesMazaya | App.tsx:391-411 | a non-empty Hajry value decides the rule together with the building value, whatever the Mazaya value |
| Bulk.NoFallback | App.tsx:391-397 | a row whose combined rule finds nothing does not fall back to the Hajry-only rule that would find a record |
| Bulk.AliasIsOneWay | App.tsx:396-421 | building `OMZ1` matches query `1142`, building `1142` does not match query `OMZ1`, and every other query is plain equality |
| Bulk.AllHitsSound | App.tsx:374-433 | every hit is a store record matching the rule of a row that was not skipped |
| Bulk.AllHitsComplete | App.tsx:374-433 | every store record matching the rule of some row is a hit |
| Bulk.BulkResults | App.tsx:374-435 | the bulk results hold one record per key, each sound, and every matching record's key is among them |
| Bulk.AllSkippedFindsNothing | App.tsx:380-383 | when every row is skipped there are no hits and no matched rows |
| Session.InitialValid | App.tsx:39-55 | the initial `useState` values form a valid state with no column selected |
| Session.SearchTypeChangeResets | App.tsx:139-148 | a mode change empties the inputs, results and spreadsheet and keeps only the view flag |
| Session.SearchIgnoredInBulkModeAndFullView | App.tsx:229 | `handleSearch` changes nothing in the `excelFile` mode or in full view |
| Session.SearchWithoutTermsClears | App.tsx:235-240 | with the terms the mode needs left empty, the search clears the results and reports no "not found" |
| Session.SearchShowsMatches | App.tsx:227-250 | a search shows the de-duplicated matches, sound and complete by key, with "not found" exactly when there are none, and records the trimmed terms |
| Session.FileSelectedClears | App.tsx:264-279 | choosing a file clears the results and the previous sheet; choosing none changes nothing |
| Session.FileReadOutcomes | App.tsx:282-326 | a decoded sheet gives the header row and the data rows; a decoding failure drops them and a reader error keeps them; both report "Excel Upload Error" |
| Session.TableViewShowsStore | App.tsx:450-466 | full view shows the whole store once per key with every store key present; compact view empties the table |
| Session.ExcelSearchRejects | App.tsx:339-360 | with no data, no headers or no recognised column, the bulk search shows nothing and "not found" for "Excel Upload" |
| Session.ExcelSearchShowsUnion | App.tsx:369-447 | a bulk search shows the key union of the row hits, with "not found" exactly when it is empty, which includes every row being skipped |
| Session.TransitionsPreserveValid | App.tsx:139-330 | a mode change, editing a query and the upload callbacks keep the state valid |
| Session.SearchPreservesValid | App.tsx:227-250 | `handleSearch` keeps the state valid |
| Session.ExcelSearchPreservesValid | App.tsx:332-448 | `handleExcelSearch` keeps the state valid |
| Session.TableViewPreservesValid | App.tsx:450-466 | `handleTableViewChange` keeps the state valid |
| Session.TransitionsKeepColumnsUnselected | App.tsx:52-54 | no handler ever selects a column |
| App.AppSession.constructor | App.tsx:39-55 | the component starts in the initial, valid state |
| App.AppSession.ResetExcelState | App.tsx:125-137 | `resetExcelState` clears the file, the sheet, the selected columns and the busy flag, and nothing else |
| App.AppSession.ClearResults | App.tsx:236 | the four setter calls that clear a search outcome produce `ResultsCleared` |
| App.AppSession.SearchTypeChangeBody | App.tsx:139-148 | the setters of `handleSearchTypeChange` produce the mode-change transition |
| App.AppSession.HandleSearchTypeChange | App.tsx:139-148 | the new state is the mode-change transition of the old one, and stays valid |
| App.AppSession.HandleSearch | App.tsx:227-250 | the new state is the search transition of the old one, and stays valid |
| App.AppSession.SearchBody | App.tsx:227-250 | the setters of `handleSearch` produce the search transition |
| App.AppSession.ClearSearchResults | App.tsx:252-262 | the new state is the edit transition of the old one, and stays valid |
| App.AppSession.ClearSearchResultsBody | App.tsx:252-262 | the setters of `clearSearchResults` produce the edit transition |
| App.AppSession.HandleFileChange | App.tsx:264-280 | the synchronous part of `handleFileChange` is the file-selection transition, and keeps the state valid |
| App.AppSession.FileChangeBody | App.tsx:264-280 | the setters of the synchronous part produce the file-selection transition |
| App.AppSession.FinishFileRead | App.tsx:282-326 | the reader callbacks produce the read transition, and keep the state valid |
| App.AppSession.FileReadBody | App.tsx:282-326 | the setters of the reader callbacks produce the read transition for each outcome |
| App.AppSession.HandleExcelSearch | App.tsx:332-448 | the new state is the bulk-search transition of the old one, and stays valid |
| App.AppSession.ExcelSearchBody | App.tsx:332-448 | the checks, the row loop and the setters produce the bulk-search transition |
| App.AppSession.ExcelRejectedBody | App.tsx:341-343 | the setters of an early return of `handleExcelSearch` produce `ExcelRejected` |
| App.AppSession.ShowBulkResults | App.tsx:443-447 | the closing setters of `handleExcelSearch` show the results, set "not found" exactly when they are empty, and clear the busy flag |
| App.AppSession.HandleTableViewChange | App.tsx:450-466 | the new state is the table-view transition of the old one, and stays valid |
| App.AppSession.TableViewChangeBody | App.tsx:450-466 | the setters of `handleTableViewChange` produce the table-view transition |
| WorkingSearch.PerformSingleSearch | App-working.tsx:105 | with both terms empty the older search returns nothing, and never more than the store |
| WorkingSearch.SearchMembers | App-working.tsx:104-129 | a record is found exactly when it is in the store, a term is given, and the older predicate accepts it |
| WorkingSearch.UniqueMatches | App-working.tsx:148-149 | the de-duplicated result holds matching store records only, one per key, covers every match when a term is given, and is empty exactly when the search found nothing |
| WorkingSearch.MatchesAgreeOnSharedModes | App-working.tsx:108-125 | in the general, combined and Mazaya modes, the substring-only predicate equals the current equal-or-contains one on every record |
| WorkingSearch.SearchAgreesOnSharedModes | App-working.tsx:104-129 | in those three modes the two searches return the same list |
| WorkingSearch.OtherModesFindNothing | App-working.tsx:127 | `hajrySearch` and `excelFile` find nothing |
| WorkingSearch.HajrySearchDiffers | App-working.tsx:127 | a `mazaya` value the current `hajrySearch` finds is not found by the older one |
| WorkingSearch.BulkSearch | App-working.tsx:203-223 | the nested row and column loops return the key union of the hits of every cell value, in visiting order |
| WorkingSearch.SearchRow | App-working.tsx:206-220 | the column loop of one row adds exactly the hits of that row's values to the map |
| WorkingSearch.ReadSelected | App-working.tsx:207-210 | the value read for a column slot is the trimmed text of the row's cell under that header, or empty when the slot is empty, the header is absent or the cell is falsy |
| WorkingSearch.SearchValue | App-working.tsx:211-217 | a non-empty cell value adds exactly its single-search hits to the map, an empty one adds nothing |
| WorkingSearch.AllHitsSound | App-working.tsx:205-221 | every hit is a store record the current mode matches with one of the non-empty cell values |
| WorkingSearch.OtherModesBulkFindNothing | App-working.tsx:127-212 | under `hajrySearch` or `excelFile` the bulk search finds nothing |
| WorkingSearch.AllHitsComplete | App-working.tsx:205-221 | every store record the current mode matches with some non-empty cell value is a hit |
| WorkingSearch.BulkResults | App-working.tsx:205-223 | the bulk results hold one record per key, each a store record matched by some cell value, and every record matched by some non-empty cell value has its key among them |
| WorkingSession.SearchAgreesOnSharedModes | App-working.tsx:131-154 | in the general, combined and Mazaya modes the older `handleSearch` is the current one |
| WorkingSession.HajrySearchFindsNothing | App-working.tsx:139-153 | `hajrySearch` shows nothing, reports "not found" exactly when a term was given, and with an empty term still records the building term |
| WorkingSession.SearchShowsMatches | App-working.tsx:131-154 | a search shows the de-duplicated matches, sound and complete by key, with "not found" exactly when there are none and a term the mode reads was given |
| WorkingSession.FileReadSplitsGrid | App-working.tsx:173-189 | a decoded sheet gives the header row and the data rows (nothing for an empty sheet), unselects the columns and clears the results; failures change nothing |
| WorkingSession.ExcelSearchRejects | App-working.tsx:195-200 | with no data, no headers or no selected column, the bulk search shows nothing and "not found" for "Excel Upload" |
| WorkingSession.UnselectedColumnsReject | App-working.tsx:195-200 | with no column selected, which is every reachable state, every bulk search takes the early return |
| WorkingSession.ExcelSearchShowsUnion | App-working.tsx:202-228 | past the early return, the search shows the key union of the cell-value hits, each sound, every matched record represented by its key, with "not found" exactly when it is empty |
| WorkingSession.ExcelModeBulkFindsNothing | App-working.tsx:127-212 | run in the `excelFile` or `hajrySearch` mode, the bulk search always shows nothing and "not found" |
| WorkingSession.UploadPreservesValid | App-working.tsx:168-192 | choosing and reading a file keep the state valid |
| WorkingSession.SearchPreservesValid | App-working.tsx:131-154 | `handleSearch` keeps the state valid |
| WorkingSession.ExcelSearchPreservesValid | App-working.tsx:194-229 | `handleExcelSearch` keeps the state valid |
| WorkingSession.TransitionsKeepColumnsUnselected | App-working.tsx:52-54 | no handler of the older application selects a column |
| WorkingApp.WorkingAppSession.constructor | App-working.tsx:39-55 | the component starts in the initial, valid state |
| WorkingApp.WorkingAppSession.ResetExcelState | App-working.tsx:61-73 | `resetExcelState` clears the file, the sheet, the selected columns and the busy flag, and nothing else |
| WorkingApp.WorkingAppSession.HandleSearchTypeChange | App-working.tsx:75-84 | the new state is the mode-change transition, and stays valid |
| WorkingApp.WorkingAppSession.ClearResults | App-working.tsx:140 | the four setter calls that clear a search outcome produce `ResultsCleared` |
| WorkingApp.WorkingAppSession.SearchTypeChangeBody | App-working.tsx:75-84 | the setters of `handleSearchTypeChange` produce the mode-change transition |
| WorkingApp.WorkingAppSession.HandleSearch | App-working.tsx:131-154 | the new state is the older search transition, and stays valid |
| WorkingApp.WorkingAppSession.SearchBody | App-working.tsx:131-154 | the setters of the older `handleSearch` produce its transition |
| WorkingApp.WorkingAppSession.ClearSearchResults | App-working.tsx:156-166 | the new state is the edit transition, and stays valid |
| WorkingApp.WorkingAppSession.ClearSearchResultsBody | App-working.tsx:156-166 | the setters of `clearSearchResults` produce the edit transition |
| WorkingApp.WorkingAppSession.HandleFileChange | App-working.tsx:168-171 | choosing a file records it and changes nothing else |
| WorkingApp.WorkingAppSession.FinishFileRead | App-working.tsx:173-189 | the reader callback produces the older read transition, and keeps the state valid |
| WorkingApp.WorkingAppSession.FileReadBody | App-working.tsx:173-189 | the setters of the `onload` callback produce the older read transition; any other outcome changes nothing |
| WorkingApp.WorkingAppSession.HandleExcelSearch | App-working.tsx:194-229 | the new state is the older bulk-search transition, and stays valid |
| WorkingApp.WorkingAppSession.ExcelSearchBody | App-working.tsx:194-229 | the checks, the nested loops and the setters produce the older bulk-search transition |
| WorkingApp.WorkingAppSession.ExcelRejectedBody | App-working.tsx:196-198 | the setters of the early return produce `ExcelRejected` |
| WorkingApp.WorkingAppSession.ShowBulkResults | App-working.tsx:224-228 | the closing setters show the results, set "not found" exactly when they are empty, and clear the busy flag |
| WorkingApp.WorkingAppSession.HandleTableViewChange | App-working.tsx:231-247 | the new state is the table-view transition, and stays valid |
| WorkingApp.WorkingAppSession.TableViewChangeBody | App-working.tsx:231-247 | the setters of `handleTableViewChange` produce the table-view transition |
| ConvertExcel.ReadColumn | scripts/convert-excel-to-data.js:31-35 | a column reads as `null` exactly when its cell is falsy, and otherwise as trimmed text |
| ConvertExcel.ReadMazaya | scripts/convert-excel-to-data.js:33 | the Mazaya column is `null` exactly when its raw cell is falsy or exactly "-", and otherwise reads like any column |
| ConvertExcel.ConvertedNulls | scripts/convert-excel-to-data.js:31-45 | each field of a converted record is `null` exactly when its cell is falsy, and `title` also for the "-" placeholder; Hajry feeds `mazaya`, Mazaya feeds `title`, the title-deed cell feeds both plot fields |
| ConvertExcel.ConvertedFieldsTrimmed | scripts/convert-excel-to-data.js:31-35 | every present field of a converted record has no white space at either end |
| ConvertExcel.ConvertReadsFiveColumns | scripts/convert-excel-to-data.js:31-45 | rows that agree on the five named columns convert to the same record, whatever other columns hold |
| ConvertExcel.ConvertRowsAppend | scripts/convert-excel-to-data.js:29-46 | conversion works row by row: converting two sheets in turn gives their record lists in turn, and no rows give no records |
| ConvertExcel.PlotMirrorsTitleDeed | scripts/convert-excel-to-data.js:39-43 | every generated record has equal plot number and title deed |
| ConvertExcel.BlankCellBecomesEmpty | scripts/convert-excel-to-data.js:31-35 | a white-space-only cell becomes "", not `null` |
| ConvertExcel.PaddedDashIsKept | scripts/convert-excel-to-data.js:33 | the placeholder test comes before trimming, so " - " is kept as "-" |
| ConvertExcel.HajryCellIsFound | scripts/convert-excel-to-data.js:41 | a record converted from a Hajry cell `v` is found by `hajrySearch`, by the bulk Hajry-only rule with `v`, and by the unreachable `excelFile` branch |
| ConvertExcel.FormatValue | scripts/convert-excel-to-data.js:54 | `null` is written as the token `null`, any value between single quotes |
| ConvertExcel.FormatValueReadBack | scripts/convert-excel-to-data.js:54 | as written, the literal reads back as the value for `null` and for every value without a backslash or a line break |
| ConvertExcel.FormatValueMisreadsEscape | scripts/convert-excel-to-data.js:54 | as written, a cell holding a backslash followed by `n` reads back from the generated literal as a line break |
| ConvertExcel.FormatValueBreaksOnTrailingBackslash | scripts/convert-excel-to-data.js:54 | as written, a value ending in a backslash gives a literal that does not parse |
| ConvertExcel.FormatValueBreaksOnLineBreak | scripts/convert-excel-to-data.js:54 | as written, a value holding a line break gives a literal that does not parse |
| ConvertExcel.FormatValueEscapedReadBack | scripts/convert-excel-to-data.js:54 | with backslashes and line breaks escaped too, every value reads back exactly |
| ConvertExcel.EscapedAgreesWithoutBackslashes | scripts/convert-excel-to-data.js:54 | on the values the original handles, the corrected `formatValue` writes the same text |

## Left out

- JSX rendering, labels, placeholders, button states and the display-time `1142`/`OMZ1` relabelling: presentation only.
- `downloadTemplate`: it builds a workbook and writes a file through the spreadsheet library.
- Spreadsheet decoding (`FileReader`, `XLSX.read`, `sheet_to_json`): asynchronous foreign calls. The model takes their result as a parameter: a grid, a load without data, a decoding failure or a reader error.
- The DOM access in `resetExcelState`, every `console` call and the current-year effect: they do not affect the engine state.
- `scripts/read-excel.js` and the file read and write of the converter: file I/O and logging only.
- The text layout of the generated data file around each `formatValue` call: plain text layout. Only the field literal is modelled.
- Full Unicode `toLowerCase` and `trim`: only ASCII letters are folded, and `trim` removes the ASCII white space, no-break space, BOM and line/paragraph separators.
- Non-integer number cells and boolean or date cells: a cell is text, a whole number or missing.
- Strings.IntToString: a spreadsheet number is a JavaScript double. The model takes a number cell to be a whole number of magnitude at most 2^53, written in plain decimal. It does not model `String(n)`'s exponent form from 1e21 upward, nor the rounding of integers above 2^53.
- React's asynchronous `setState` batching: each handler is one atomic transition from the old state.
- The `onChange` wiring of the inputs (`setHajryInput`, `setBuildingNoInput`) and the column-selection controls: the older application has no controls that set the selected columns. Its bulk search is modelled in full, and `WorkingSession.UnselectedColumnsReject` records that no reachable state gets past its early return.
- The older application's markup binds only `handleSearchTypeChange` and `handleTableViewChange`, plus `handleSearch` on a form with no input and no submit button. Its `handleFileChange`, `handleExcelSearch` and `clearSearchResults` are bound to no element. The model gives them as handlers all the same, but its interface cannot reach them.
- Bulk.BulkSearch: the counters `totalSearchTerms` and `foundMatches` only reach the log. The method returns them and proves their values, but no state holds them.
- ConvertExcel.Unescape: the digit, `\x` and `\u` escapes and line continuations of a string literal are not modelled. The bad values shown use none of them.

## Findings

| source | as written | input that shows it | evidently intended | confidence | as-written member | corrected member |
|---|---|---|---|---|---|---|
| scripts/convert-excel-to-data.js:54 | `formatValue` escapes single quotes only, so a backslash in a cell starts an escape sequence in the generated file | a cell holding the four characters `a\nb` (a backslash then `n`) | the generated literal reads back as the cell text | medium, not executed | ConvertExcel.FormatValueMisreadsEscape | ConvertExcel.FormatValueEscapedReadBack |
| scripts/convert-excel-to-data.js:54 | a value ending in a backslash escapes the closing quote | a cell holding `x\` | the generated data file parses | medium, not executed | ConvertExcel.FormatValueBreaksOnTrailingBackslash | ConvertExcel.FormatValueEscapedReadBack |
| scripts/convert-excel-to-data.js:54 | a line break inside a value is written raw into a single-quoted literal | a cell holding `a`, a line feed, `b` (trimming only removes outer white space) | the generated data file parses | medium, not executed | ConvertExcel.FormatValueBreaksOnLineBreak | ConvertExcel.FormatValueEscapedReadBack |
