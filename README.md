# Transaction dashboard: query layer and importer

A model of the server side of a small product-sale dashboard. An importer
replaces the whole ProductTransaction collection with the items of an upstream
feed. Three read-only handlers query the collection, always scoped to a month
of the year (any year):

- the paginated listing, with an optional case-insensitive search on title or description;
- the price-range bar chart, ten fixed ranges;
- the monthly statistics: the sum of sold prices, the sold count and the unsold count.

The collection is a `seq<Record>` in storage order. The queries are pure
functions over it. The collection itself is the `records` field of a `Store`
class, whose `DeleteMany` and `InsertMany` methods change it in place. The
importer is the module-level method `FetchAndInitializeDatabase`, which takes
the store and calls those two methods.

Files:

- `wrappers.dfy`: `Option` and `Result`.
- `sequences.dfy`: `Filter`, the order-preserving selection every query uses, and its lemmas.
- `text.dfy`: ASCII case folding and the case-insensitive substring test used by the search.
- `product_transaction.dfy`: the record, the schema check applied on insert, and the store class.
- `transaction_controller.dfy`: the month filter, the four handlers and their properties.

How the inputs the model cannot compute are represented:

- The `month` query parameter is a `MonthArg`. It holds the raw string (`None` when absent) and the month index, 0 to 11, that the platform's date parser reads from `"<month> 1, <year>"`. The index is `None` when that parse gives NaN.
- A sale date is reduced to its month of year (1 to 12) and its year.
- Prices are `real`.
- The upstream response is an argument of the importer, a `Fetched` value with three cases. `FetchFailed` is a failed request. `NotAnArray` is a body that is not an array. `Array(items)` is an array whose entries are items, or `None` for a null or undefined entry. Each item's date is the platform's reading of its date string, `None` for an invalid date.

Three behaviours of the code are easy to misread; the model follows the code:

- **Statistics and an unparseable month.** The statistics handler checks only that `month` is present. It does not check that it parses. A NaN month index equals no record's month, so the aggregation yields no document and the handler answers with zeros, not a 400 (`StatisticsAcceptsUnparsedMonth`).
- **A limit of 0.** The listing passes `limit` to the cursor's `.limit`, where 0 means "no limit". So `limit = 0` lists every match from the skipped position on (`ZeroLimitListsAll`). Only a positive limit bounds the page.
- **Listing without a month.** The listing has no missing-month check. An absent month fails only because it does not parse, so the model lets the parse result decide.

## Model

| member | source | states |
|---|---|---|
| `Sequences.Filter` | controllers/transactionController.js:53 | the selection keeps exactly the elements satisfying the query, each with its original multiplicity, and never grows the collection |
| `Sequences.FilterAppend` | controllers/transactionController.js:53 | selecting from two concatenated parts gives the two selections concatenated, so the matches keep their storage order |
| `TransactionController.QueryResults` | controllers/transactionController.js:40-51 | a record is in the listing query's result exactly when it is stored, its sale month is `monthIndex + 1`, and the search is empty or found in its title or description |
| `TransactionController.Skip` | controllers/transactionController.js:54 | `.skip(n)` keeps the results from position n on, in order; nothing when n is past the end |
| `TransactionController.Limit` | controllers/transactionController.js:55 | `.limit(k)` keeps a prefix of the results: all of them when k is 0, otherwise the first min(k, count) |
| `TransactionController.MonthMatches` | controllers/transactionController.js:40-44 | a record is selected exactly when its sale month equals `monthIndex + 1`; the year does not take part |
| `TransactionController.MonthFilterIgnoresYear` | controllers/transactionController.js:35-44 | moving a sale to another year never changes how many records a month matches |
| `TransactionController.ListTransactions` | controllers/transactionController.js:30-59 | the listing fails, with InvalidMonth, exactly when the month does not parse; `page`, `limit` and `search` default to 1, 10 and "" |
| `TransactionController.ListingWindow` | controllers/transactionController.js:53-57 | `total` is the number of matching records; the k-th listed record is the `((page-1)*limit + k)`-th match; the page is no longer than `total` or a positive `limit`; every listed record is in the store and satisfies month AND search |
| `TransactionController.TotalIgnoresPaging` | controllers/transactionController.js:57 | `total` is the same for every `page` and `limit` |
| `TransactionController.PagesCoverMatches` | controllers/transactionController.js:53-55 | with a positive limit, the i-th match appears on page `i / limit + 1` at position `i % limit`, so paging loses no match |
| `TransactionController.DefaultListingIsFirstPage` | controllers/transactionController.js:31-57 | with only a month given, the defaults page 1, limit 10 and an empty search list the first ten month matches, or all of them when fewer, with `total` the month's match count |
| `TransactionController.ZeroLimitListsAll` | controllers/transactionController.js:55 | a limit of 0 imposes no bound: the listing holds every match |
| `TransactionController.EmptySearchIsMonthQuery` | controllers/transactionController.js:46-51 | an empty search adds no condition: the matches equal the month-only matches |
| `TransactionController.SearchNarrowsMonthQuery` | controllers/transactionController.js:46-51 | a search is ANDed with the month filter: its results are month matches and never more numerous |
| `TransactionController.SearchIgnoresCase` | controllers/transactionController.js:47-50 | folding the search string to lower case changes no result |
| `Text.PatternCaseIrrelevant` | controllers/transactionController.js:48-49 | a field matches a search string exactly when it matches its lower-case form |
| `Text.ExactOccurrenceMatches` | controllers/transactionController.js:48-49 | a search string occurring in a field exactly as written is found ignoring case |
| `TransactionController.PriceRange` | controllers/transactionController.js:91-105 | every price is labelled with one of the ten labels of the completion step, never "Other" |
| `TransactionController.RangeIndex` | controllers/transactionController.js:93-104 | every price gets one of the ten labels, at the position of the interval holding it; the "Other" default is never reached |
| `TransactionController.BucketRule` | controllers/transactionController.js:93-104 | a price gets label k exactly when it lies in interval k (below 100; [100k, 100(k+1)) for k = 1..8; 900 and up): the rule is total and exclusive |
| `TransactionController.AddToGroup` | controllers/transactionController.js:89-107 | counting one more record keeps every other label's entry, touches only entries carrying its own label, which keep a positive count, and keeps labels distinct; the rise by one is `FoundCountAfterAdd` |
| `TransactionController.GroupByRange` | controllers/transactionController.js:88-108 | the group stage yields at most one entry per label, each label one of the ten and each count positive |
| `TransactionController.FoundCountAfterAdd` | controllers/transactionController.js:107 | after counting one record, the count found for its label rises by one and every other label's is unchanged |
| `TransactionController.GroupCountsRecords` | controllers/transactionController.js:107-128 | the count the completion step finds for a label is the number of records carrying that label, 0 when the label is absent |
| `TransactionController.FindRange` | controllers/transactionController.js:125 | `find` returns an entry carrying the label when one exists, and nothing exactly when no entry carries it |
| `TransactionController.FoundCountMeaning` | controllers/transactionController.js:125-128 | among entries with distinct labels, the count taken for a label is that of the entry carrying it, and 0 when none does |
| `TransactionController.CompleteRanges` | controllers/transactionController.js:119-130 | the completed chart has exactly the ten labels, in the fixed order |
| `TransactionController.GetBarChartData` | controllers/transactionController.js:67-77 | MissingMonth exactly when `month` is absent or empty; otherwise InvalidMonth exactly when it does not parse; success otherwise |
| `TransactionController.RangeCountsAddUp` | controllers/transactionController.js:107-130 | the ten completed counts add up to the number of records grouped |
| `TransactionController.BarChartShape` | controllers/transactionController.js:80-130 | a successful chart has ten entries in fixed order; entry i counts the month's records priced in range i; the counts sum to the number of month matches |
| `TransactionController.GetStatistics` | controllers/transactionController.js:140-147 | MissingMonth exactly when `month` is absent or empty; no other error |
| `TransactionController.GroupTotals` | controllers/transactionController.js:158-164 | every record adds to exactly one of `totalSold` and `totalUnsold`, so they sum to the number of records |
| `TransactionController.AggregateStatistics` | controllers/transactionController.js:150-174 | the aggregation yields no document exactly when nothing matches, else one document whose sold and unsold counts add up to the matches |
| `TransactionController.StatisticsScope` | controllers/transactionController.js:147-157 | an unparseable month matches nothing; otherwise a record is aggregated exactly when it is stored and its sale month is `monthIndex + 1` |
| `TransactionController.GroupTotalsMeaning` | controllers/transactionController.js:158-164 | the accumulators are the sum of prices of the sold records, the count of sold records and the count of unsold records; sold plus unsold is the number of records |
| `TransactionController.StatisticsTotals` | controllers/transactionController.js:150-180 | statistics of a provided month are those totals over the month's matching records, with `totalSold + totalUnsold` equal to their number |
| `TransactionController.StatisticsOfNoMatch` | controllers/transactionController.js:176-180 | when no record matches, the answer is all zeros, never absent |
| `TransactionController.StatisticsAcceptsUnparsedMonth` | controllers/transactionController.js:147-157 | a provided month that does not parse gives zeros from statistics, while the bar chart rejects it with InvalidMonth |
| `TransactionController.MarchExampleScope` | controllers/transactionController.js:150-157 | on five March sales (one from another year) and one February sale, the March filter keeps exactly the five March sales |
| `TransactionController.MarchStatistics` | controllers/transactionController.js:150-180 | on that store, March statistics are 350 in sales, 3 sold and 2 unsold |
| `TransactionController.MarchCounts` | controllers/transactionController.js:93-104 | the five March prices 50, 150, 150, 950 and 300 fall 1, 2, 0, 1, 0, 0, 0, 0, 0, 1 into the ten ranges, so 300 lands in "301-400" and 950 in "901+" |
| `TransactionController.MarchChart` | controllers/transactionController.js:80-130 | on that store, the March chart has the ten labels in order with counts 1, 2, 0, 1, 0, 0, 0, 0, 0, 1; the February sale is not counted |
| `ProductTransaction.ValidateAll` | models/ProductTransaction.js:3-32 | a batch validates exactly when every document has non-empty required strings and a valid date; the records then match the documents one for one |
| `ProductTransaction.Store.DeleteMany` | controllers/transactionController.js:9 | the store is empty afterwards |
| `ProductTransaction.Store.InsertMany` | controllers/transactionController.js:20 | all documents are appended in order when all conform; otherwise nothing is written and the call fails |
| `TransactionController.ToDocument` | controllers/transactionController.js:11-19 | the field mapping loses nothing: a document that passes the schema check, stored and read back through the inverse mapping, is the original item |
| `TransactionController.MapItems` | controllers/transactionController.js:11-19 | the map yields one document per entry, in order, and throws exactly when some entry is null or undefined |
| `TransactionController.ImportedRecords` | controllers/transactionController.js:9-20 | a failed request leaves the store unchanged; a body that is not an array, a null entry or a rejected insert leaves it empty, since the delete already ran; a successful import leaves exactly the feed, which the inverse mapping reads back entry for entry |
| `TransactionController.FetchAndInitializeDatabase` | controllers/transactionController.js:5-27 | the store ends as `ImportedRecords` says, and success is reported exactly when the body is an array of items that all pass the schema check |
| `TransactionController.ImportReplacesStore` | controllers/transactionController.js:9-20 | after a successful import the store has the feed's length, and record i carries item i's title, description, price, category, date, sold flag and image |
| `TransactionController.ImportIdempotent` | controllers/transactionController.js:9-20 | importing the same response again leaves the store as the first import left it |
| `TransactionController.ImportTwice` | controllers/transactionController.js:5-27 | two consecutive imports of one feed report the same status and leave the store the first import made |

## Left out

- Month-name parsing: the platform's date parser for `"<month> 1, <year>"` is foreign code. Its result is an input of the model.
- Date parsing of feed items: `new Date(item.dateOfSale)` is foreign. Its result is part of each feed item.
- `$month` is evaluated in UTC. The model's sale date already holds the month of year, so time zones are not modelled.
- `$regex` search: the search string is treated as a literal substring after ASCII lower-casing. Regular-expression syntax and non-ASCII case folding are not modelled.
- `page` and `limit` arrive as strings and are coerced by JavaScript. They are naturals here.
- `ListTransactions`: requires `page >= 1`. With a positive limit, a page below 1 gives a negative skip, which the datastore rejects with an error answered as 500. With a limit of 0 the skip is 0 for any page, so the code lists every match. Neither case of a page below 1 is modelled.
- Datastore and network failures (the 500 answers of every handler) and their logging are left out. The one modelled failure is a failed feed fetch.
- Floating-point rounding of price sums: prices and sums are `real`.
- Storage order: no sort key is given, so the order of the input sequence is taken as the storage order. The model lists `$group` entries in one particular order; the completion step finds by label, so that order does not affect the chart.
- Feed entries that are objects with missing fields, or with fields of the wrong JSON type, are not modelled. Every item present has all seven fields. The schema check models only empty required strings and invalid dates.
- Concurrency: a reader running during an import can see the store empty between the delete and the insert. The model runs the two steps back to back.
- HTTP wiring, CORS, static files, the database connection and the browser dashboard are not part of this model.
