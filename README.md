# Sales query engine — a Dafny model

This project models the query engine of a sales-transactions browser: the rules that turn
a search term, multi-select and range filters, a sort key and a page request into a subset
of records, an order, a page and summary totals, plus the filter-option domains computed
from the whole data set. The engine exists twice in the repository, and both copies are
modelled side by side without being merged:

- **In-memory path** (`backend/src/utils/filterUtils.js`, module `FilterUtils`): sequence
  transformations over an array of normalised records — word-prefix search, the chain of
  filter steps, a stable sort of a copy, clamped pagination and the one-pass extraction of
  filter options.
- **Store path** (`backend/src/services/salesService.js`, module `SalesService`): builders
  of MongoDB query documents. A query document is a datatype (`Query` of `Cond` entries:
  `Pattern` for `/\bword/i`, `In`, `TagsIn`, `AgeRange`, `DateRange`, `AnyOf` for `$or`,
  `AllOf` for `$and`) with an evaluator `Matches(q, t)`. The store is a `seq<Doc>`; count,
  `$group` sums and the sorted page fetch are filter, fold and sort over that sequence, all
  driven by the same query.
- **Divergences** (module `Divergences`) states over the same records where the two paths
  agree and where they part: multi-word search, `date` sort with `'asc'`, out-of-range
  pages, the `dateTo` bound, age 0 in the option range, unreadable bounds, the empty tag.

Supporting modules:

- `CsvParser` and `ImportData` — the two copies of row normalisation (`parseIntSafe`,
  `parseTags`, first-truthy alias lookup, the `TXN000001` fallback id). The import
  script's `parseIntSafe`, `parseFloatSafe` and `parseTags` are character-for-character the
  loader's, so `ImportData` reuses them from `CsvParser`; its `normalizeRecord`, which
  accepts fewer column spellings, is its own function.
- `Api` — the client's `fetchSalesData` parameter builder, as an ordered list of
  key/value pairs, and its round trip with the server's `parseArrayParam`.
- `UseSalesData` — the client's view state (`filters`, `sort`, `page`, `pagination`) as a
  class with one method per action.
- `PaginationView`, `FilterDropdown`, `Formatters` — the pure helpers embedded in UI files.
- `Wrappers`, `Text`, `Numbers`, `Seqs`, `Records` — shared helpers: `Option`, ASCII
  lower-casing, trimming, white-space and delimiter splitting, code-point string order,
  `parseInt`, decimal printing, filtering, stable insertion sort, page windows, the
  26-field `Transaction` and `YYYY-MM-DD` dates read as UTC midnight timestamps, a day past
  the month's end rolling over into the next month as the runtime's date arithmetic does.

The two search paths behave differently in the code: in-memory multi-word search requires
every word to begin a word of ONE field, while the store query requires each word to begin a
word of SOME field. The store path also does not ignore an age bound `parseInt` cannot read
(it compares with `NaN` and matches nothing); it compares dates as strings and does not
extend `dateTo` to the end of the day; and it does not clamp the page and does not skip
age 0 in the age range.

## Model

| member | source | states |
|---|---|---|
| `FilterUtils.ApplySearchBlank` | backend/src/utils/filterUtils.js:9-10 | an absent, empty or white-space-only term returns the data unchanged |
| `FilterUtils.FieldMatchesWords` | backend/src/utils/filterUtils.js:25-58 | a field matches iff it is non-empty and every query word begins a white-space separated word of the lower-cased field (one word: that word; several: all of them) |
| `FilterUtils.SearchSingleWord` | backend/src/utils/filterUtils.js:14-58 | single word: a record is kept iff one of the six searchable fields is non-empty and has a word starting with the lower-cased trimmed term |
| `FilterUtils.SearchMultiWord` | backend/src/utils/filterUtils.js:31-42 | several words: a record is kept iff one single searchable field has, for every query word, a word starting with it |
| `FilterUtils.QueryWords` | backend/src/utils/filterUtils.js:12-31 | the words of a non-blank query are non-empty and free of white space |
| `FilterUtils.ApplyFilters` | backend/src/utils/filterUtils.js:66-143 | the chain of `if` steps leaves exactly the input records `Keeps` accepts, in input order |
| `FilterUtils.FilteredSpec` | backend/src/utils/filterUtils.js:66-143 | the filtered result is a subsequence of the input and holds a record iff it is in the input and passes every active condition (list membership, tag intersection with non-empty tags, inclusive ages, inclusive dates) |
| `Records.RollOver` | backend/src/utils/filterUtils.js:122-125 | a day past the end of a month (days run to 31) is the same day count as the matching day of the next month |
| `Records.FebruaryThirtieth` | backend/src/utils/filterUtils.js:122-125 | `2023-02-30` is a valid date and the same instant as `2023-03-02` |
| `FilterUtils.DateToInclusive` | backend/src/utils/filterUtils.js:131-141 | extending `dateTo` to 23:59:59.999 makes it keep every record dated on or before that day |
| `FilterUtils.TagFilterExample` | backend/src/utils/filterUtils.js:105-111 | a `["sale"]` tag filter keeps tags `clearance, sale` and drops `new` |
| `FilterUtils.Direction` | backend/src/utils/filterUtils.js:153 | the direction is -1 or 1 |
| `FilterUtils.ApplySortingPermutes` | backend/src/utils/filterUtils.js:149-178 | the sorted result is a permutation of the input, and a falsy `sortBy` returns the input itself |
| `FilterUtils.ApplySortingUnknownKey` | backend/src/utils/filterUtils.js:173-174 | an unknown sort key keeps the original order |
| `FilterUtils.ApplySortingQuantity` | backend/src/utils/filterUtils.js:162-163 | `quantity` sorts ascending for anything but `'desc'`, descending for `'desc'` |
| `FilterUtils.ApplySortingFinalAmount` | backend/src/utils/filterUtils.js:170-171 | `finalAmount` sorts ascending for anything but `'desc'`, descending for `'desc'` |
| `FilterUtils.ApplySortingCustomerName` | backend/src/utils/filterUtils.js:165-168 | `customerName` sorts by the lower-cased name in the string order, reversed for `'desc'` |
| `FilterUtils.ApplySortingDate` | backend/src/utils/filterUtils.js:157-160 | `date` with `'asc'` puts the newest first, with `'desc'` the oldest first |
| `FilterUtils.CeilDiv` | backend/src/utils/filterUtils.js:186 | `Math.ceil(n / d)`: the least `q` with `q * d >= n` |
| `FilterUtils.ApplyPaginationSpec` | backend/src/utils/filterUtils.js:184-201 | `totalItems = n` and `totalPages = ceil(n / pageSize)`; the page is clamped into `[1, max(totalPages, 1)]`: kept when in range, the last page when past the end, page 1 when below 1; the rows are the window of at most `pageSize` at `(currentPage - 1) * pageSize`; `hasNextPage` iff `currentPage < totalPages`, `hasPrevPage` iff `currentPage > 1` |
| `FilterUtils.PagesReproduceData` | backend/src/utils/filterUtils.js:184-192 | concatenating pages `1..totalPages` reproduces the data exactly |
| `FilterUtils.PaginationExample` | backend/src/utils/filterUtils.js:185-200 | 23 rows in pages of 10: 3 pages, page 1 has 10 rows and only a next page, page 3 the last 3 rows and no next page |
| `FilterUtils.AddEach` | backend/src/utils/filterUtils.js:221-223 | adding each tag to the insertion-ordered set gives the distinct tags seen so far |
| `FilterUtils.ExtractFilterOptions` | backend/src/utils/filterUtils.js:207-240 | the loop's five sets, listed sorted, are the sorted distinct non-empty regions, genders, categories, payment methods and all tags; the age range is the min/max over positive ages, else 0 and 100 |
| `FilterUtils.Visit` | backend/src/utils/filterUtils.js:216-228 | the callback run on each record turns what was gathered from the records before it into what is gathered from them plus this one |
| `FilterUtils.FilterOptionsSpec` | backend/src/utils/filterUtils.js:216-235 | each option list is strictly increasing and holds exactly the non-empty values of its field; the tag list holds every tag, the empty one included |
| `FilterUtils.PositiveAgeBounds` | backend/src/utils/filterUtils.js:224-239 | the age minimum and maximum exist iff some age is positive, are ages of records and bound every positive age |
| `FilterUtils.AgeRangeExample` | backend/src/utils/filterUtils.js:224-227 | ages 0, 0, 34, 0, 67 give the range 34..67 |
| `FilterUtils.TruthyMembers` | backend/src/utils/filterUtils.js:217-220 | a value is collected for a field iff it is non-empty and some record carries it |
| `SalesService.SearchQueryMeaning` | backend/src/services/salesService.js:7-43 | the search query matches everything for a blank term, else exactly the records in which every query word follows a `\b` in some searchable field, words possibly in different fields |
| `SalesService.WordsQueryMeaning` | backend/src/services/salesService.js:13-41 | one word gives one `$or`, several give `$and` of one `$or` per word; the result matches iff every word is found in some field |
| `SalesService.AlternativesHold` | backend/src/services/salesService.js:15-25 | a word's `$or` over the six fields matches iff one of the fields has the word after a word boundary |
| `SalesService.SearchQueryKeys` | backend/src/services/salesService.js:7-42 | the search query has at most one key, `$or` or `$and` |
| `SalesService.BuildFilterQuery` | backend/src/services/salesService.js:48-88 | the successive key assignments produce the filter document: an `$in` per non-empty list, one `age` entry merging `$gte` and `$lte`, one `date` entry likewise |
| `SalesService.AgeAssignments` | backend/src/services/salesService.js:71-77 | assigning `$gte` then `$lte` under `age` through the spread leaves one entry holding both bounds |
| `SalesService.DateAssignments` | backend/src/services/salesService.js:79-85 | the same for the `date` bounds |
| `SalesService.FilterQueryMeaning` | backend/src/services/salesService.js:48-88 | the filter document matches exactly the records in every non-empty list, sharing a tag with the tag list, within the `parseInt` age bounds (`NaN` matches nothing) and within the raw date strings, inclusive |
| `SalesService.FilterQueryKeys` | backend/src/services/salesService.js:48-88 | the filter document assigns each key once and never `$or` or `$and` |
| `SalesService.ParseArrayParamSpec` | backend/src/services/salesService.js:93-97 | a falsy value gives `[]`, an array passes through; a string gives exactly its non-empty trimmed comma-separated pieces (each kept piece comes from the text, each non-empty trimmed piece is kept), in the text's order, none holding a comma or surrounding white space |
| `SalesService.PiecesSound` | backend/src/services/salesService.js:95-96 | each kept piece is the trimmed form of some comma-separated piece of the text, so it is non-empty, comma-free and trimmed at both ends |
| `SalesService.PiecesKept` | backend/src/services/salesService.js:95-96 | every non-empty trimmed piece of the text is in the result, and the result is an in-order subsequence of the trimmed pieces |
| `SalesService.SpreadDisjoint` | backend/src/services/salesService.js:137 | spreading documents with disjoint keys keeps both sets of entries |
| `SalesService.FinalQueryMeaning` | backend/src/services/salesService.js:123-137 | the merged query matches iff the search and every filter hold |
| `SalesService.FindSelects` | backend/src/services/salesService.js:137-140 | `find` with the merged query returns the selected documents in store order |
| `SalesService.GetSalesData` | backend/src/services/salesService.js:102-204 | the response: the summary is the sums over all matched records with `totalDiscount = totalAmount - totalFinalAmount` and `recordCount = totalItems`, independent of the page; rows are the unclamped window at `(page - 1) * pageSize` of the sorted matches without `_id`; `totalPages = ceil(totalItems / pageSize)` and the flags; a page below 1 is refused |
| `SalesService.SumsAppend` | backend/src/services/salesService.js:143-160 | the three totals are additive over consecutive runs of documents |
| `SalesService.SummaryExample` | backend/src/services/salesService.js:143-162 | rows (2, 100, 90) and (3, 50, 50) sum to 5 units, 150, 140 and a discount of 10; no rows give zeros |
| `SalesService.SortSpec` | backend/src/services/salesService.js:166-175 | a sort entry exists iff the key is one of the four known ones, with direction 1 for `'asc'` and -1 otherwise |
| `SalesService.NegativeSkip` | backend/src/services/salesService.js:178-180 | the skip is negative exactly for pages below 1 |
| `SalesService.StorePagesCover` | backend/src/services/salesService.js:177-187 | the sorted matches are a permutation of the matches, and pages `1..totalPages` cover them exactly once |
| `SalesService.PagePastEnd` | backend/src/services/salesService.js:178-187 | a page past the last returns no rows |
| `SalesService.StoreOrderSorted` | backend/src/services/salesService.js:182-184 | the store sort returns the matches ordered by the key, ascending for 1 and descending for -1 |
| `SalesService.StoreDateAscending` | backend/src/services/salesService.js:167-168 | `date` with `'asc'` sorts the date strings ascending |
| `SalesService.Strip` | backend/src/services/salesService.js:190 | removing `_id` keeps every row's record, in order |
| `SalesService.ListingSpec` | backend/src/services/salesService.js:237-242 | each option listing is strictly increasing and holds exactly the non-empty distinct values |
| `SalesService.ListingOrderFree` | backend/src/services/salesService.js:221-242 | the listing does not depend on the order `distinct` returns values in |
| `SalesService.FilterOptionLists` | backend/src/services/salesService.js:219-241 | `getFilterOptions`' five lists are each strictly increasing and hold exactly the non-empty values their field (or any record's tags) takes in the store |
| `SalesService.MinAgeSpec` | backend/src/services/salesService.js:225-233 | `$min` over the ages exists exactly for a non-empty store, is one record's age and is at most every age |
| `SalesService.MaxAgeSpec` | backend/src/services/salesService.js:225-233 | `$max` over the ages exists exactly for a non-empty store, is one record's age and is at least every age |
| `SalesService.FilterOptionAges` | backend/src/services/salesService.js:225-245 | the age range is the least age, or 0 when the store is empty or that age is 0, and the greatest age, or 100 when the store is empty or that age is 0 |
| `SalesService.GetTransactionByIdSpec` | backend/src/services/salesService.js:253-264 | the lookup is absent iff no record has the id, else it is the first record with that id, without `_id` |
| `Divergences.InMemorySearchWithinStore` | backend/src/services/salesService.js:26-41 | for words starting with a word character, every record the in-memory search keeps is matched by the store's search query |
| `Divergences.WordPrefixNotInfix` | backend/src/utils/filterUtils.js:45-58 | on both paths `"neha"` keeps `"Neha Yadav"` and drops `"Sneha"` |
| `Divergences.HyphenSplitsWords` | backend/src/services/salesService.js:15 | `"yadav"` matches `"Neha-Yadav"` in the store (`\b` after the hyphen) but not in memory (white-space words only) |
| `Divergences.WordsInTwoFieldsStore` | backend/src/services/salesService.js:28-41 | `"neha cust1"` matches a record named `"Neha Yadav"` with id `"CUST1"` in the store, each word in its own field |
| `Divergences.WordsInTwoFieldsInMemory` | backend/src/utils/filterUtils.js:34-42 | the same record and term are dropped in memory, since no one field holds both words |
| `Divergences.DateAscendingOpposite` | backend/src/utils/filterUtils.js:157-160 | with `'asc'`, the in-memory `date` sort puts the later record first and the store keeps the earlier first |
| `Divergences.PageOutOfRange` | backend/src/utils/filterUtils.js:187 | a page past the last is moved back to the last, non-empty page in memory, while the store returns no rows |
| `Divergences.UnreadableAgeBound` | backend/src/utils/filterUtils.js:84-96 | an age bound `parseInt` cannot read is ignored in memory and makes the store keep nothing |
| `Divergences.UnreadableDateTo` | backend/src/services/salesService.js:83-85 | a `dateTo` naming no date is ignored in memory, while the store still compares date strings with it |
| `Divergences.UnreadableDateToWitness` | backend/src/utils/filterUtils.js:131-141 | `dateTo = "zzz"` keeps a record dated `"zzzz"` in memory and drops it in the store |
| `Divergences.OptionListsAgree` | backend/src/services/salesService.js:237-242 | over the same records the store's listing of a field equals the in-memory option list |
| `Divergences.EmptyTagDiffers` | backend/src/utils/filterUtils.js:221-223 | an empty tag appears in the in-memory tag list but not in the store's |
| `Divergences.ZeroAgeDiffers` | backend/src/services/salesService.js:243-246 | with ages 0 and `b > 0`, the in-memory range is `b..b` while the store's minimum is 0 |
| `CsvParser.ParseIntSafeDefaults` | backend/src/utils/csvParser.js:16-20 | a missing or empty value, or one without a leading integer after removing commas, reads as 0; otherwise the `parseInt` of the comma-free text |
| `CsvParser.ParseIntSafeOfString` | backend/src/utils/csvParser.js:16-20 | the decimal form of any integer reads back as that integer, integers being unbounded (JavaScript's rounding above 2^53 and its `Infinity` for very long digit strings are left out) |
| `CsvParser.ParseIntSafeIgnoresCommas` | backend/src/utils/csvParser.js:18 | a value parses as it would without its commas |
| `CsvParser.ParseTagsPassThrough` | backend/src/utils/csvParser.js:34-36 | empty text gives no tags and an array is returned as it is |
| `CsvParser.ParseTagsClean` | backend/src/utils/csvParser.js:39-43 | every tag read from text is non-empty, trimmed and free of brackets, quotes, commas and bars |
| `CsvParser.ParseTagsOfJoin` | backend/src/utils/csvParser.js:34-44 | clean tags joined with `,` or `|` read back as the same tags |
| `CsvParser.FirstTruthySpec` | backend/src/utils/csvParser.js:57-114 | a field takes the text of the first spelling that has text, in the listed order, and is missing when none has |
| `CsvParser.FirstTruthyAppend` | backend/src/utils/csvParser.js:74-92 | further spellings are read only when none of the earlier ones has text |
| `CsvParser.FallbackIdSpec` | backend/src/utils/csvParser.js:51-54 | the fallback id is `TXN` and `index + 1` zero-padded to six digits |
| `CsvParser.FallbackIdsDistinct` | backend/src/utils/csvParser.js:51-54 | rows at different positions get different fallback ids |
| `CsvParser.NormalizeTransactionId` | backend/src/utils/csvParser.js:51-54 | the id is `Transaction ID`, else `transaction_id`, else the fallback, never empty |
| `CsvParser.NormalizeTagsClean` | backend/src/utils/csvParser.js:70 | every tag of a normalised record is clean |
| `CsvParser.NormalizePriceAliases` | backend/src/utils/csvParser.js:74-79 | `Price`/`price` are read only when `Price per Unit` and `price_per_unit` have no text |
| `ImportData.ExtraAddsNothing` | backend/scripts/importData.js:54-65 | spellings without text add nothing to an alias list |
| `ImportData.AgreesWithLoader` | backend/scripts/importData.js:39-66 | on rows with none of the loader's extra spellings, the import script's record equals the loader's field for field |
| `ImportData.NetAmountOnlyInLoader` | backend/scripts/importData.js:57 | a final amount only under `Net Amount` is read by the loader and is 0 in the import script |
| `ImportData.SalesPersonNameOnlyInLoader` | backend/scripts/importData.js:65 | an employee name only under `Sales Person Name` is kept by the loader and empty in the import script |
| `Api.AppendText` | frontend/src/services/api.js:36-38 | a string parameter is appended only when non-empty |
| `Api.AppendList` | frontend/src/services/api.js:41-43 | a list is appended once, joined with commas, only when non-empty |
| `Api.FetchQuery` | frontend/src/services/api.js:32-79 | the step-by-step appends produce the request's parameter list |
| `Api.QuerySends` | frontend/src/services/api.js:35-79 | each parameter carries what its rule says: search, ages and dates when not `''`, lists when non-empty, `sortOrder` only with `sortBy` and defaulting to `asc`, page and page size always, defaulting to 1 and 10 |
| `Api.QueryInOrder` | frontend/src/services/api.js:33-79 | keys appear in the fixed order, each at most once |
| `Api.ListRoundTrip` | frontend/src/services/api.js:42 | a list of non-empty, comma-free values without surrounding white space joined with `,` and read by `parseArrayParam` is the same list |
| `Api.ListsArrive` | frontend/src/services/api.js:41-55 | every clean multi-select list reaches the server unchanged, whether sent or not |
| `UseSalesData.SalesData.constructor` | frontend/src/hooks/useSalesData.js:4-48 | the initial state is the empty filters, sort `date`/`desc`, page 1 and the empty pagination |
| `UseSalesData.SalesData.Request` | frontend/src/hooks/useSalesData.js:79-84 | the fetch carries the current page, page size 10 and the current sort |
| `UseSalesData.SalesData.SetSearch` | frontend/src/hooks/useSalesData.js:107-110 | only `filters.search` changes, and the page becomes 1 |
| `UseSalesData.SalesData.UpdateFilter` | frontend/src/hooks/useSalesData.js:113-116 | only the named filter changes, and the page becomes 1 |
| `UseSalesData.SalesData.ResetFilters` | frontend/src/hooks/useSalesData.js:119-122 | the filters return to the initial ones, and the page becomes 1 |
| `UseSalesData.SalesData.UpdateSort` | frontend/src/hooks/useSalesData.js:125-128 | both sort parts are replaced, the order defaulting to `asc`, and the page becomes 1 |
| `UseSalesData.SalesData.GoToPage` | frontend/src/hooks/useSalesData.js:131-133 | the page is set unconditionally |
| `UseSalesData.SalesData.NextPage` | frontend/src/hooks/useSalesData.js:135-139 | the page grows by one only when `hasNextPage` holds, and nothing else changes |
| `UseSalesData.SalesData.PrevPage` | frontend/src/hooks/useSalesData.js:141-145 | the page drops by one only when `hasPrevPage` holds, and nothing else changes |
| `UseSalesData.SalesData.Receive` | frontend/src/hooks/useSalesData.js:86-89 | a successful answer replaces the pagination only |
| `UseSalesData.InitialRequest` | frontend/src/hooks/useSalesData.js:4-20 | the first request carries only `sortBy=date`, `sortOrder=desc`, `page=1`, `pageSize=10` |
| `UseSalesData.FilterChangeSent` | frontend/src/hooks/useSalesData.js:113-116 | changing one filter changes only its own request parameter |
| `UseSalesData.PageStepsStayInRange` | frontend/src/hooks/useSalesData.js:135-145 | stepping by the server's flags stays within `1..totalPages`, and moves iff a neighbouring page exists |
| `PaginationView.ShownRangeIsPage` | frontend/src/components/Pagination.jsx:19-20 | on an existing page, `startItem..endItem` are exactly the positions of that page's rows |
| `PaginationView.PushRange` | frontend/src/components/Pagination.jsx:28-30 | the push loop appends the pages `a..b` |
| `PaginationView.GetPageNumbers` | frontend/src/components/Pagination.jsx:23-71 | the pushes produce the page list: all pages up to five, else 1, the middle run with `'...'` where pages are skipped, and the last page |
| `PaginationView.FewPagesAllShown` | frontend/src/components/Pagination.jsx:27-31 | with at most five pages the list is exactly `1..totalPages` |
| `PaginationView.ManyPagesShapes` | frontend/src/components/Pagination.jsx:36-62 | with more than five pages: `currentPage <= 2` shows `1 2 3 4 ... t`, `currentPage >= t - 1` shows `1 ... t-3 t-2 t-1 t`, otherwise the run `c-1..c+1` with `'...'` exactly where it skips pages |
| `PaginationView.ManyPagesSpec` | frontend/src/components/Pagination.jsx:33-67 | with more than five pages the list has at most 7 entries, starts with 1, ends with `totalPages` and shows the current page |
| `PaginationView.PageNumbersWellSpaced` | frontend/src/components/Pagination.jsx:49-62 | neighbouring numbers are consecutive and every `'...'` hides at least one page |
| `PaginationView.PageNumbersIncreasing` | frontend/src/components/Pagination.jsx:23-70 | the numbers shown strictly increase and lie in `[1, totalPages]` |
| `FilterDropdown.IsActive` | frontend/src/components/FilterDropdown.jsx:44-46 | active iff something is chosen: a non-empty list or a set range end |
| `FilterDropdown.DisplayText` | frontend/src/components/FilterDropdown.jsx:48-63 | with nothing chosen, and for a date range always, the text is the label; a single chosen item is shown as itself; an active age range shows its two ends joined by ` - `, with `Min` or `Max` standing in for an empty end |
| `FilterDropdown.MultiCountShown` | frontend/src/components/FilterDropdown.jsx:49-53 | with two or more items the text is the label then the count in parentheses |
| `FilterDropdown.AgeRangeShowsMin` | frontend/src/components/FilterDropdown.jsx:58-61 | a typed lower age bound is what the age-range text starts with |
| `FilterDropdown.ToggleMembers` | frontend/src/components/FilterDropdown.jsx:37-42 | a click flips whether the option is chosen, removing every copy, and keeps the other options in order |
| `FilterDropdown.ToggleTwiceUnchosen` | frontend/src/components/FilterDropdown.jsx:37-42 | two clicks on an unchosen option give back the same list |
| `FilterDropdown.ToggleTwiceChosen` | frontend/src/components/FilterDropdown.jsx:37-42 | two clicks on a chosen option give the same set of options, that option now once at the end |
| `Formatters.National` | frontend/src/utils/formatters.js:28-35 | the digits `formatPhone` groups are ten digits |
| `Formatters.FormatPhoneGroups` | frontend/src/utils/formatters.js:28-35 | ten digits, or twelve starting with 91, are shown as `+91 XXXXX XXXXX` of the ten national digits, whose digits read as 91 then the national number |
| `Formatters.FormatPhoneFallbacks` | frontend/src/utils/formatters.js:25-36 | no number shows `-`; any other digit count shows the input unchanged |
| `Formatters.FormatPhoneIdempotent` | frontend/src/utils/formatters.js:25-37 | formatting a shown number again changes nothing |
| `Formatters.SRTextReadsBack` | frontend/src/utils/formatters.js:81-83 | `1 SR` for one, otherwise the count then ` SRs`, the count printed in plain decimal (JavaScript's exponent form from 1e21 up is left out) |

## Left out

- MongoDB driver calls (`countDocuments`, `aggregate`, `find`/`sort`/`skip`/`limit`, `distinct`, `findOne`, `getDB`) and `backend/src/config/database.js`: foreign code; the store is a `seq<Doc>` and each call is the filter, fold or sort it performs.
- The store's sort is modelled as stable (ties keep store order); MongoDB promises no tie order.
- The store's `\b${word}` pattern is read with the word taken literally; regular-expression metacharacters in a query word are out of scope.
- `getDataCount` (`countDocuments()` on the whole store) is the length of the store sequence and has no member of its own.
- Date parsing and `setHours`: only `YYYY-MM-DD` dates are read, as UTC midnight timestamps with months 1-12 and days 1-31 (a day past the month's end rolls over); every other text, including the date-time forms the runtime also accepts, counts as an invalid date, and time zones are not modelled.
- Numbers are unbounded integers, where JavaScript's are IEEE doubles: `parseInt`'s rounding above 2^53 ("9007199254740993" reads as 9007199254740992), its `Infinity` for a digit string of more than about 309 characters (which `parseIntSafe` then turns into 0), and `String`'s exponent form from 1e21 up are not modelled.
- `CsvParser.ParseIntSafeOfString`: holds for the source only for integers of magnitude below 2^53, because of the rounding and `Infinity` above.
- `Numbers.ParseIntOfString`: holds for JavaScript's `parseInt` only for integers of magnitude below 2^53, for the same reason.
- `Formatters.SRTextReadsBack`: holds for the source only for counts below 2^53, above which `String` and `parseInt` round, and from 1e21 up the count prints in exponent form.
- `SalesService.GetSalesData`: when any record matches, the source's response summary is the `$group` document itself and so also carries `_id: null`; the model's summary has no such field.
- `localeCompare` and the default `Array.prototype.sort` order are modelled as code-point lexicographic order; lower-casing is ASCII only.
- Amounts are exact reals: IEEE rounding of sums and of `totalDiscount` is not modelled, and `parseFloat` is a parameter of `NormalizeRecord`.
- `FilterUtils.ApplyPagination` and `SalesService.GetSalesData` require a page size of at least 1: a page size of 0 (division by zero; `limit(0)` meaning no limit) and `NaN` are not modelled.
- `SalesService.GetSalesData` takes `page` and `pageSize` as integers; `parseInt` of their query-string text is not modelled, and a page below 1 is a refused request (`None`) standing for the store's error on a negative skip.
- `FilterUtils.ApplySortingDate` is proved only when every record's date is valid: an invalid date makes the comparator return `NaN`, read as a tie, and the order around it is then unspecified.
- `Api.FetchQuery` takes `ageMin`/`ageMax` as text, so the numeric `0` the form may hold is the text `"0"`; the `URLSearchParams` percent-encoding and `fetchWithRetry` are not modelled.
- `UseSalesData`: the asynchronous `loadData` effect, loading and error flags, and the filter-options fetch are left out; `Receive` stands for a successful answer.
- `formatPhone` of a non-string value and `getSRText` of a non-integer count are not modelled.
- CSV streaming (`loadCSVData`, `MAX_RECORDS`), the batched import loop, `fs` and environment variables are I/O.
- HTTP routing, controllers, UI rendering, `debounce`, `copyToClipboard`, `formatNumber`, `formatCurrency` and `formatDate` are outside the modelled core.
