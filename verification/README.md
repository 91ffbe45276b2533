# worldforge-help item browser, modelled in Dafny

A model of the item browser of worldforge-help: the catalogue query behind
`POST /api/items` (search text, membership and range filters, ordering,
one page of 50 and the match count), the distinct-value listing behind
`POST /api/options`, the two route handlers that validate requests and
turn every failure into an HTTP status, the client-side browse store and
the filter widgets that edit its filter map, the pager, and the small
classification rules of the item tooltip.

The database is a sequence of rows (`Where.Row`: the item document and its
embedding). The WHERE clause is modelled by what it admits, not as SQL text.
The embedding model and the pgvector distance operator are function
parameters. The result of each `SELECT DISTINCT` query is passed in as the
column it returns. Every operation is a pure function from the old state to
the new one. The widgets' `forceSearch()` bumps the store's `needsSearch`
counter; app/page.tsx re-runs its fetch on a counter of its own, so that
bump does not by itself start a search.

Files, one module each:

| file | module | models |
|---|---|---|
| wrappers.dfy | `Wrappers` | `Option` and `Result` |
| text.dfy | `Text` | the string built-ins the core relies on: ASCII case folding, substring search, code-point order, JavaScript `trim` and `parseInt`, decimal rendering |
| types.dfy | `Types` | types/types.ts |
| where.dfy | `Where` | the row predicate of lib/db.ts |
| ordering.dfy | `Ordering` | the ORDER BY of lib/db.ts |
| db.dfy | `Db` | `fetchItems` and `fetchDistinctOptions` |
| items_route.dfy | `ItemsRoute` | app/api/items/route.ts |
| options_route.dfy | `OptionsRoute` | app/api/options/route.ts |
| store.dfy | `Store` | app/store.ts |
| range_filter.dfy | `RangeFilter` | components/range-filter.tsx |
| item_level_filter.dfy | `ItemLevelFilter` | components/item-level-filter.tsx |
| filter_select.dfy | `FilterSelect` | components/filter-select.tsx |
| item_filters.dfy | `ItemFilters` | components/item-filters.tsx |
| pagination.dfy | `Pagination` | components/pagination.tsx and the "Showing a-b" line |
| item_tooltip.dfy | `ItemTooltip` | components/item-tooltip.tsx |

The items route (app/api/items/route.ts:7) passes any non-zero parsed page
through, so a negative page reaches `fetchItems`. There lib/db.ts:96
computes a negative `OFFSET`, which PostgreSQL rejects, so the route answers
500 (`Db.FetchItems`, `ItemsRoute.Post`).

## Model

| member | source | states |
|---|---|---|
| Types.FromValue | types/types.ts:37-48 | the kind whose string value is the given text; `None` exactly when no kind has that value |
| Types.FromValueOfValue | types/types.ts:37-48 | every kind is recovered from its string value |
| Types.ValueInjective | types/types.ts:37-48 | two kinds with the same string value are the same kind |
| Types.KindsPartition | types/types.ts:50-61 | membership kinds and range kinds split the enum; the column kinds are the membership kinds other than `primaryStats` |
| Types.ShapeFollowsKind | types/types.ts:50-61 | for well-typed filters the kind alone decides the shape |
| Where.FieldText | lib/db.ts:105-121 | zone, quality, slot type and slot are always present; `itemType` may be missing; only the five column kinds name a text field |
| Where.NumberAt | lib/db.ts:123-136 | the two levels are always present; DPS and speed are present exactly when the item has a damage record |
| Where.ClauseOfMeaning | lib/db.ts:105-138 | the clause a filter adds holds exactly when `FilterKeeps`, the per-kind reading of the filter, keeps the item: the bridge the folding lemmas use |
| Where.FilterClausesMeaning | lib/db.ts:103-140 | all filter clauses hold exactly when every filter keeps the item |
| Where.AdmitsMeaning | lib/db.ts:98-142 | a row matches exactly when the search text keeps it and every filter keeps it: the clauses are independent conjuncts |
| Where.ExtraFilterMeaning | lib/db.ts:103-142 | appending a filter adds its own demand and nothing else |
| Where.NoInputAdmitsAll | lib/db.ts:142 | with no search text and no filter every row matches |
| Where.SearchOnly | lib/db.ts:99-101 | non-empty search text keeps exactly the items whose name contains it, ignoring case |
| Where.NoClauseCases | lib/db.ts:105-138 | an empty list, a `primaryStats` filter and a shape that does not fit the kind add no clause; every other well-typed filter adds one |
| Where.NoClauseIsNoOp | lib/db.ts:105-138 | a filter that adds no clause can be inserted anywhere without changing which rows match |
| Where.LevelFilterMeaning | lib/db.ts:125-130 | a level filter keeps exactly the items whose level is within the bounds |
| Where.DamageFilterMeaning | lib/db.ts:131-136 | a DPS or speed filter also drops every item without a damage record |
| Where.InvertedRangeMatchesNothing | lib/db.ts:123-136 | a range filter with min above max matches no row |
| Where.MembershipFilterMeaning | lib/db.ts:105-121 | a column filter keeps exactly the items whose field is listed; an item without `itemType` never passes an `itemType` filter |
| Text.StrLeTotal | lib/db.ts:151 | any two names are comparable in the collation |
| Text.StrLeAntisymmetric | lib/db.ts:151 | names that sort both ways are equal |
| Text.StrLeTransitive | lib/db.ts:151 | the collation is transitive |
| Text.TrimEmptyIffBlank | app/api/items/route.ts:19 | the trimmed query is empty exactly when every character is JavaScript whitespace |
| Text.ParseIntOfDecimal | app/api/items/route.ts:7 | `parseInt` reads back any integer from its decimal text |
| Text.ParseIntOfDecimalThen | app/api/items/route.ts:7 | `parseInt` reads back an integer from its decimal text followed by any text that does not start with a digit |
| Ordering.KeyLeTotal | lib/db.ts:151 | any two sort keys are comparable |
| Ordering.KeyLeTransitive | lib/db.ts:151 | the key order is transitive |
| Ordering.InsertMultiset | lib/db.ts:151 | inserting a row into an ordered list adds exactly that row |
| Ordering.InsertSorted | lib/db.ts:151 | inserting a row into a list sorted by key keeps it sorted |
| Ordering.SortRows | lib/db.ts:144-151 | the ordered rows are a permutation of the input, sorted by key |
| Ordering.SortedMeaning | lib/db.ts:144-151 | in sorted rows distance comes first when there is an embedding; then name; then item level compared as text |
| Ordering.ItemLevelSortsAsText | lib/db.ts:151 | of two items named alike, level 10 sorts before level 9 |
| Ordering.SortRowsIgnoresDistance | lib/db.ts:144-145 | without a query embedding the order does not depend on the distance function |
| Db.CeilDiv | lib/db.ts:161 | `totalPages × pageSize ≥ totalCount > (totalPages − 1) × pageSize`, and `totalPages = 0` iff `totalCount = 0` |
| Db.Offset | lib/db.ts:96 | the offset is negative exactly when the page is below 1 |
| Db.Window | lib/db.ts:152-153 | the window holds `min(limit, max(0, n − offset))` rows, the ones from `offset` on |
| Db.Select | lib/db.ts:142-159 | the matching rows are the rows the predicate admits, each as often as in the table |
| Db.FetchItems | lib/db.ts:85-171 | a missing connection string throws; a page below 1 fails; otherwise page and page size are echoed, the count is the number of matching rows, and the response is the page of the matching rows in key order that starts at the offset |
| Db.PageOf | lib/db.ts:152-170 | the page has `min(pageSize, max(0, totalCount − offset))` items, each of them matching when every ordered row matches, and `totalPages` is the ceiling of `totalCount / pageSize` |
| Db.ReorderedStillAdmitted | lib/db.ts:142-153 | reordering the matching rows keeps every one of them matching |
| Db.PageIsSortedWindow | lib/db.ts:147-154 | the page is the window at the offset of an arrangement of exactly the matching rows in key order |
| Db.FetchItemsIgnoresDistance | lib/db.ts:144-145 | without a query embedding the page does not depend on the distance function |
| Db.CountUnderExtraFilter | lib/db.ts:142-159 | an extra filter never raises the count, and one that adds no clause leaves the matches unchanged |
| Db.UnfilteredCountsAll | lib/db.ts:142-159 | no search text and no filters select the whole table |
| Db.FullRangeFilter | lib/db.ts:123-136 | a range covering every value drops nothing for a level kind, but a DPS or speed filter still drops the rows without damage |
| Db.KeepNames | lib/db.ts:20-22 | the kept names are exactly the non-null, non-empty values of the column |
| Db.KeepNamesSorted | lib/db.ts:15-22 | dropping entries keeps a strictly increasing column strictly increasing |
| Db.FetchDistinctOptions | lib/db.ts:6-83 | a missing connection string throws; a kind without a column throws; otherwise each option has label = value ≠ "", the values are exactly the non-empty column values, and the order of a sorted column is kept |
| Db.DistinctOptionsOfTable | lib/db.ts:13-78 | against its own table the list holds each non-empty field value exactly once and nothing else |
| ItemsRoute.ParsePage | app/api/items/route.ts:7 | the page is never 0, and is either 1 or what `parseInt` read |
| ItemsRoute.ParsePageOfDecimal | app/api/items/route.ts:7 | a page sent as a decimal integer comes back unchanged, negative ones included, except 0, which becomes 1 |
| ItemsRoute.ParsePageMissing | app/api/items/route.ts:7 | a missing page becomes 1 |
| ItemsRoute.ParsePageUnparsable | app/api/items/route.ts:7 | a page whose text, after leading whitespace and one optional sign, is empty or does not start with a digit becomes 1 |
| ItemsRoute.WantsEmbeddingMeaning | app/api/items/route.ts:19 | an embedding is requested exactly when the query is not blank |
| ItemsRoute.Post | app/api/items/route.ts:4-33 | every failure is a 500 with the generic message; success echoes the parsed page and page size 50; a negative page, a `null` body or a missing connection fails; basic mode counts the whole table; advanced mode counts the name matches |
| ItemsRoute.PostServesFetchedPage | app/api/items/route.ts:12-26 | a successful reply carries the page `fetchItems` serves: in advanced mode a name search for the raw query with no embedding; in basic mode no name search, ordered by distance to the query's embedding when the query is not blank (the embedding was then computed), and with neither otherwise |
| ItemsRoute.AdvancedSearchMatchesNames | app/api/items/route.ts:12-15 | in advanced mode every returned item's name contains the query, ignoring case |
| ItemsRoute.EmbedderConsultedOnlyForBasicQueries | app/api/items/route.ts:12-26 | in advanced mode, or with a blank query, the reply does not depend on the embedding model |
| ItemsRoute.AdvancedIgnoresDistance | app/api/items/route.ts:12-15 | in advanced mode the reply does not depend on the distance function |
| OptionsRoute.KindOf | app/api/options/route.ts:15 | only a string equal to some kind's value passes the membership check |
| OptionsRoute.Post | app/api/options/route.ts:6-25 | a `null` body is a 500; a falsy type is 400 "Type is required"; a truthy non-kind is 400 "Invalid option type"; a kind gets the option list, or a 500 when the lookup throws |
| OptionsRoute.EmptinessCheckedFirst | app/api/options/route.ts:9-17 | every valid kind is truthy; the empty string is reported as missing, not invalid |
| OptionsRoute.BadRequestsMakeNoLookup | app/api/options/route.ts:9-17 | a 400 reply depends on neither the connection nor the table |
| OptionsRoute.ColumnKindsAnswered | app/api/options/route.ts:19-20 | the five column kinds get their option list unchanged |
| OptionsRoute.ValidatedButUnsupported | app/api/options/route.ts:15-23 | `primaryStats` and the four range kinds pass validation and then get a 500 |
| Store.Without | components/range-filter.tsx:76-80 | deleting a key removes it and keeps every other entry |
| Store.With | components/range-filter.tsx:83-90 | storing a filter under a key sets it and keeps every other entry |
| Store.EditsKeepKeyedByKind | app/store.ts:28 | deleting a key, or storing a filter under its own kind, keeps every filter under its own kind |
| Store.InitialState | app/store.ts:35-57 | the store starts with no search, page 1, no items, zero counts, not loading, basic mode, no filters and a zero counter |
| Store.SetLoading | app/store.ts:46 | sets `loading` and nothing else |
| Store.SetSearchQuery | app/store.ts:36 | sets `searchQuery` and nothing else |
| Store.SetCurrentPage | app/store.ts:38 | sets `currentPage` and nothing else |
| Store.SetItems | app/store.ts:40 | sets `items` and nothing else |
| Store.SetTotalCount | app/store.ts:42 | sets `totalCount` and nothing else |
| Store.SetTotalPages | app/store.ts:44 | sets `totalPages` and nothing else |
| Store.SetAdvancedSearch | app/store.ts:48 | sets `advancedSearch` and nothing else |
| Store.SetterLaws | app/store.ts:36-48 | for every pair of the seven plain setters (loading, search query, current page, items, total count, total pages, advanced search): setters of different fields commute, the second of two writes to the same field wins, and writing a field's current value changes nothing |
| Store.SetFilters | app/store.ts:51-55 | a value replaces the filters, an updater is applied to the current filters; nothing else changes |
| Store.SetFiltersForms | app/store.ts:51-55 | a constant updater acts like its value; the identity updater changes nothing |
| Store.ForceSearch | app/store.ts:58 | raises the counter by exactly one and changes nothing else |
| Store.ForceSearchCounts | app/store.ts:58 | n calls raise the counter by exactly n and change nothing else |
| RangeFilter.RangeFetched | components/range-filter.tsx:38-54 | loading stops in every case; a reply stores its bounds with 0 for a missing one; a failed request keeps the range |
| RangeFilter.Sync | components/range-filter.tsx:57-68 | nothing happens while both range ends are 0; otherwise the thumbs show the stored range filter of the kind, else the whole range |
| RangeFilter.HandleValueChange | components/range-filter.tsx:70-95 | the thumbs move; the whole range deletes the kind's key, any other choice stores a range filter of that kind under it; other keys are kept; the counter rises by one |
| RangeFilter.HiddenUntilRangeKnown | components/range-filter.tsx:38-99 | hidden whenever loading, on mount in particular; after the range request settles, shown exactly when the reported maximum is present and not 0 (after a failed request, when the previous maximum is not 0) |
| RangeFilter.ChangeThenSyncShowsChoice | components/range-filter.tsx:57-95 | after a change the init effect shows exactly the chosen bounds |
| RangeFilter.ChangeKeepsKeyedByKind | components/range-filter.tsx:82-90 | a change keeps every filter under its own kind |
| RangeFilter.StoredFilterMeaning | components/range-filter.tsx:74-90 | the stored filter keeps exactly the items whose value is within the bounds; for DPS and speed, never an item without damage |
| ItemLevelFilter.MaxFetched | components/item-level-filter.tsx:19-33 | loading stops in every case; a reply stores its maximum, 0 when missing |
| ItemLevelFilter.Sync | components/item-level-filter.tsx:36-47 | nothing happens while the maximum is 0; otherwise the thumbs show the stored item-level filter, else 0 to the maximum |
| ItemLevelFilter.HandleValueChange | components/item-level-filter.tsx:49-74 | `[0, max]` deletes the item-level key, anything else stores an item-level range filter; other keys are kept; the counter rises by one |
| ItemLevelFilter.HiddenUntilMaxKnown | components/item-level-filter.tsx:19-78 | hidden whenever loading, on mount in particular; after the maximum request settles, shown exactly when the reported maximum is present and not 0 (after a failed request, when the previous maximum is not 0) |
| ItemLevelFilter.ChangeThenSyncShowsChoice | components/item-level-filter.tsx:36-74 | after a change the init effect shows exactly the chosen bounds |
| ItemLevelFilter.StoredFilterMeaning | components/item-level-filter.tsx:53-70 | the stored filter keeps exactly the items whose level is within the bounds |
| ItemLevelFilter.ChangeKeepsKeyedByKind | components/item-level-filter.tsx:60-70 | a change keeps every filter under its own kind |
| FilterSelect.OnValueChange | components/filter-select.tsx:37-55 | for `zone` a non-empty selection is stored as a membership filter and an empty one deletes the key; other kinds leave the filters alone; other keys are kept; the counter rises by one in every case |
| FilterSelect.ChangeKeepsInvariants | components/filter-select.tsx:40-51 | a change keeps filters under their own kind and never stores an empty membership list |
| FilterSelect.ZoneSelectionMeaning | components/filter-select.tsx:41-49 | after a zone selection the stored filter keeps exactly the items in a selected zone, and is absent exactly when nothing is selected |
| ItemFilters.UpdateFilter | components/item-filters.tsx:32-34 | sets one key and keeps every other entry |
| ItemFilters.ClearFilter | components/item-filters.tsx:36-40 | removes one key and keeps every other entry |
| ItemFilters.ClearAllFilters | components/item-filters.tsx:42-44 | the result has no key |
| ItemFilters.ActiveFilterCount | components/item-filters.tsx:46 | the count is 0 exactly when there is no key, and at most 6 |
| ItemFilters.SelectValueChange | components/item-filters.tsx:75 | "all" stores `undefined`, any other choice stores the text; other keys are kept |
| ItemFilters.SliderValueChange | components/item-filters.tsx:144-150 | the full range stores `undefined`, any other position stores the bounds; other keys are kept |
| ItemFilters.Lowest | components/item-filters.tsx:48 | the smallest value of a non-empty list, absent for an empty one |
| ItemFilters.Highest | components/item-filters.tsx:49 | the largest value of a non-empty list, absent for an empty one |
| ItemFilters.AllKeepsKeyCounted | components/item-filters.tsx:46-75 | after choosing "all" the key still counts, shows no badge, and the select shows "all" |
| ItemFilters.SelectRoundTrip | components/item-filters.tsx:74-75 | a chosen value is shown again in the select and as a badge |
| ItemFilters.SliderRoundTrip | components/item-filters.tsx:143-150 | after moving a slider it is drawn at the chosen bounds |
| ItemFilters.ClearingCounts | components/item-filters.tsx:36-57 | clearing a key lowers the count by one and removes its badge; clearing all hides "Clear all" |
| ItemFilters.BadgeImpliesCounted | components/item-filters.tsx:201-203 | a key with a badge is counted |
| Pagination.EnabledTargetsInRange | components/pagination.tsx:13-63 | from a page in range every enabled button leads to a page in range |
| Pagination.EnabledTargetsMove | components/pagination.tsx:13-63 | every enabled button leads to a different page |
| Pagination.EndsDisableTheirSide | components/pagination.tsx:13-63 | on page 1 First and Previous are disabled, on the last page Next and Last; a single page disables all four |
| Pagination.NavigationRoundTrip | components/pagination.tsx:22-62 | Previous then Next returns to the current page; after Last, Next is disabled |
| Pagination.ShowingRange | app/page.tsx:126 | the label runs from the first position of the page to the end of the page or the last item, whichever is earlier |
| Pagination.ShowingMatchesPage | app/page.tsx:126 | the label's range, floored at 0, has the length of the page served |
| ItemTooltip.QualityColor | components/item-tooltip.tsx:9-20 | qualities outside the table fall back to white |
| ItemTooltip.QualityColorsDistinct | components/item-tooltip.tsx:9-14 | Epic, Rare and Uncommon get distinct colours, none of them white |
| ItemTooltip.Capitalize | components/item-tooltip.tsx:49 | same length; the first character is upper-cased and the rest kept |
| ItemTooltip.CapitalizeKeepsName | components/item-tooltip.tsx:49 | capitalising is idempotent and keeps the name equal ignoring case |
| ItemTooltip.PrimaryStatLine | components/item-tooltip.tsx:47-51 | a white line that starts with `+` and ends with a space and the capitalised stat name |
| ItemTooltip.PrimaryStatLineReadsBack | components/item-tooltip.tsx:49 | the text after the `+` reads back with `parseInt` as the stat's value, negative values included |
| ItemTooltip.EquipEffectExtended | components/item-tooltip.tsx:68-73 | an equip effect stays one inside any longer text |
| ItemTooltip.SecondaryStatLine | components/item-tooltip.tsx:58-80 | the line is green exactly for numbers and equip effects, white otherwise; a number line starts with `+` and ends with a space and the stat name; a text line ends with the whole text and is longer than it, by an `Equip: ` prefix, exactly for equip effects |
| ItemTooltip.SecondaryStatLineReadsBack | components/item-tooltip.tsx:58-80 | a number line's value reads back with `parseInt`; a green text line is itself an equip effect |
| ItemTooltip.EquipMatchIsCaseSensitive | components/item-tooltip.tsx:68-73 | "Chance" is not an equip effect; every text containing "chance" is |
| ItemTooltip.PrimaryLines | components/item-tooltip.tsx:47 | one line per primary stat, in order |
| ItemTooltip.SecondaryLines | components/item-tooltip.tsx:58 | one line per secondary stat, in order |
| ItemTooltip.Render | components/item-tooltip.tsx:20-83 | binding and slot type only when non-empty; damage only when present; each stat section only when it has an entry, with one line per stat |
| ItemTooltip.RenderListsEveryStat | components/item-tooltip.tsx:45-53 | the i-th primary line ends with the i-th stat's name, capitalised, equal to it ignoring case |

## Left out

- SQL text: the interpolated strings, their injection behaviour, the `%` and `_` wildcards of `ILIKE`, and the Neon client. The model states the predicate each clause intends.
- Collation: names compare by code point; the database's own collation may order differently. `ILIKE` case folding is modelled for ASCII letters only.
- Embedding inference and the pgvector `<->` operator: both are function parameters. Distance is a `real`; float rounding is not modelled.
- Db.FetchItems: `<->` is modelled as total. An empty query vector (an empty array is truthy at lib/db.ts:144, so `'[]'` is sent) and one whose length differs from the column's are rejected by pgvector, and a NULL embedding gives a NULL distance that sorts last; the model serves a page in all three cases.
- ItemsRoute.Post: for the same reason answers Ok where an empty or wrong-length embedding makes the route answer 500.
- Ordering.SortRows: SQL leaves the order of rows with equal keys open; the model fixes one such order (table order among equals).
- Db.FetchItems: requires a positive page size. Every caller passes a positive size; `Math.ceil(n / 0)` would not be an integer.
- Db.FetchItems: integers are unbounded, so a page large enough that `(page - 1) * pageSize` overflows PostgreSQL's 64-bit `OFFSET` (about 1.8e17 for pages of 50) yields an empty page here, where the database rejects the query.
- ItemsRoute.Post: answers Ok with an empty page for a page number whose offset overflows a 64-bit `OFFSET`, where the route answers 500; JavaScript would also round such a page, since it exceeds 2^53.
- Text.ParseIntOfDecimal: stated for every integer; JavaScript numbers are doubles, so it holds in JavaScript for magnitudes up to 2^53 only (above that `parseInt` rounds, and from 1e21 on `String` uses exponent form).
- Text.ParseIntOfDecimalThen: the same 2^53 bound applies.
- ItemsRoute.ParsePageOfDecimal: the same 2^53 bound applies to the page number.
- ItemTooltip.PrimaryStatLine: stat values are integers in the model; a fractional `number` stat, which `+{value}` would render with its fraction, is not modelled.
- ItemTooltip.PrimaryStatLineReadsBack: the same 2^53 bound applies to the stat value.
- ItemTooltip.SecondaryStatLineReadsBack: the same 2^53 bound applies to a numeric stat value.
- The range endpoints (app/api/*-range/routes): their MIN/MAX queries are not modelled; their replies are inputs to `RangeFilter.RangeFetched` and `ItemLevelFilter.MaxFetched`.
- The DPS, speed and required-level filter wrappers: they only configure `RangeFilter`; the step and `toFixed` formatting are presentation.
- app/page.tsx and components/items-table.tsx: effects, debounce timers, fetch calls and rendering, apart from the "Showing a-b" line in `Pagination`.
- ItemsRoute.Post: the page and query are taken as the text `String(…)` makes of them, so non-string JSON values are covered only through that text.
- ItemLevelFilter.Sync: an `itemLevel` entry that is not a range filter cannot be stored under the declared types; the model shows the defaults for it.
- ItemTooltip.Capitalize: upper-cases ASCII letters only; JavaScript's full Unicode upper-casing can lengthen a string (`ß` becomes `SS`).
- ItemTooltip.QualityColor: quality names that hit `Object.prototype` members (such as `constructor`) are not modelled.
- Logging, HTTP response plumbing, environment reading and the Slider, Select and MultiSelect widgets.
