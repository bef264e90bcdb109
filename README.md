# Breakout trading dashboard — verified model of its data-shaping core

The dashboard stores simulated breakout trades (one `TradingData` record per
trade: symbol, company, sector, cooldown setting, holding period, market-cap
category, breakout date, duration and twelve-month return) and serves them
to a React front end. This project models, in Dafny, the three places where
that data is shaped, and proves what each promises:

- **Ingestion** (`ingest_data.py`, module `Ingest`, file `ingest.dfy`):
  - symbols are ranked by decreasing market capitalisation and put into
    categories (Mega below rank 50, Large below 100, Mid below 250, Small
    below 500, Micro after that);
  - spreadsheet headers are trimmed and renamed;
  - every row whose symbol is unlisted or Micro is dropped, and every other
    row becomes one record, with missing company and sector columns
    defaulted to `""` and `"Other"`;
  - records are written in batches of 5000 with a final partial batch;
  - `run` clears the table and ingests the six listed files that exist.

  The table is a class whose only state is the append-only log of batches
  handed to `bulk_create`.
- **Analytics API** (`analytics/views.py`, module `AnalyticsViews`, file
  `analytics_views.dfy`, over the record of `analytics/models.py` in
  `trading_data.dfy`):
  - the shared query filters: weeks and cooldown default to 52, the date
    range is inclusive, and sector and market cap filter only when given
    and not "All";
  - the dashboard histogram of successful trades (return of at least 20%):
    one entry per rounded duration, five left-closed return bands, and
    zero-filled counts;
  - the KPI summary;
  - the date range;
  - the sorted list of distinct sectors.
- **Sector performance screen** (`frontend/src/StaggeredSectorPerformance.jsx`,
  module `SectorPerformance`, file `sector_performance.dfy`):
  - the per-sector average of the four market-cap rates;
  - the ranking by average or by sector name;
  - the KPI tiles: best and worst sector, and best and worst market cap
    by the mean of its strictly positive rates;
  - the screen state changed by the fetch and by `handleSort`;
  - the chart height.

Shared pieces:

- `Orders` (`orders.dfy`):
  - total preorders and strict total orders;
  - a character-code lexicographic order on strings;
  - a stable insertion sort, defined on sequences and carried out in place
    on an array, that every sort in the system is modelled by (JavaScript's
    `Array.prototype.sort` is stable, so rows that compare equal keep
    their order);
  - the distinct values of a sequence in increasing order.
- `Reductions` (`reductions.dfy`): sums and means of reals.
- `Optional` (`optional.dfy`): the option type.

Rates, returns and durations are exact reals, and dates are day numbers.
A non-empty fetch whose rows have no strictly positive market-cap rate makes
`mcapEntries[0]` undefined. Reading a field of it throws inside the promise,
so the screen shows "Error fetching data." and keeps its previous rows and
KPIs. The model has this as the `Rejected` outcome of
`SectorPerformance.ProcessResponse`.

`analytics/tests.py` expects a success rate that is a share of positive
returns, while `KPIDataView` reports the mean return of the trades that
returned at least 20%. The model follows `views.py`.

## Model

| member | source | states |
|---|---|---|
| Orders.StrLeqTotal | frontend/src/StaggeredSectorPerformance.jsx:96 | any two sector names are comparable in the string order |
| Orders.StrLeqTransitive | frontend/src/StaggeredSectorPerformance.jsx:96 | the string order is transitive |
| Orders.StrLeqAntisymmetric | analytics/views.py:39 | two names that each sort at or before the other are equal, so the strict order separates distinct sectors |
| Orders.StrLeqIsTotalPreorder | frontend/src/StaggeredSectorPerformance.jsx:96 | the name comparison used by `localeCompare` is a total preorder, so sorting by it is well defined |
| Orders.StrLessIsStrictTotalOrder | analytics/views.py:39 | the strict string order used by `order_by('sector')` is irreflexive, transitive and connected |
| Orders.StrictlyIncreasingDistinct | analytics/views.py:39 | a strictly increasing list holds no value twice |
| Orders.StableSort | frontend/src/StaggeredSectorPerformance.jsx:45 | the stable order `Array.prototype.sort` produces, as an insertion sort on sequences; it has the input's length |
| Orders.InsertAt | frontend/src/StaggeredSectorPerformance.jsx:45 | an inserted element lands right after the last element that may precede it, behind a run of elements strictly after it |
| Orders.InsertPerm | frontend/src/StaggeredSectorPerformance.jsx:45 | an insertion adds exactly the inserted element |
| Orders.StableSortPerm | frontend/src/StaggeredSectorPerformance.jsx:45 | the sort is a permutation of its input |
| Orders.InsertSorted | frontend/src/StaggeredSectorPerformance.jsx:45 | inserting into a sorted sequence keeps it sorted |
| Orders.StableSortSorted | frontend/src/StaggeredSectorPerformance.jsx:45 | the sort is ordered by the comparison and a permutation of its input |
| Orders.StableSortOfSorted | frontend/src/StaggeredSectorPerformance.jsx:92-97 | input already in order is its own sort, so sorting twice is sorting once |
| Orders.InsertTies | frontend/src/StaggeredSectorPerformance.jsx:45 | an insertion never passes an element level with the inserted one |
| Orders.StableSortKeepsTies | frontend/src/StaggeredSectorPerformance.jsx:45 | stability: the elements that the comparison ranks level with any given one come out in their input order |
| Orders.StableSortFirst | frontend/src/StaggeredSectorPerformance.jsx:50 | the first of the sort is the earliest input element that may precede every element, so every earlier element is strictly after it |
| Orders.StableSortLast | frontend/src/StaggeredSectorPerformance.jsx:51 | the last of the sort is the latest input element that may follow every element, so every later element is strictly before it |
| Orders.SortInPlace | frontend/src/StaggeredSectorPerformance.jsx:92-97 | after the in-place sort the array holds the stable sort of its old contents: ordered by the comparison, a permutation, and left exactly as it was when already in order |
| Orders.InsertIntoPrefix | frontend/src/StaggeredSectorPerformance.jsx:45 | one insertion step by adjacent swaps: the prefix becomes the old prefix with the next element inserted as the stable sort inserts it, and the rest of the array is untouched |
| Orders.Sorted | frontend/src/StaggeredSectorPerformance.jsx:93-97 | `[...data].sort(...)`: the sorted copy is the stable sort of the input |
| Orders.InsertDistinct | analytics/views.py:39 | adding a value to a strictly increasing list keeps it strictly increasing, adds that value and nothing else, and drops a duplicate |
| Orders.SortedDistinct | analytics/views.py:39 | `DISTINCT ... ORDER BY`: the result is strictly increasing and holds exactly the values of the input |
| Reductions.SumAppend | analytics/views.py:144-145 | the sum of two concatenated lists is the sum of their sums |
| Reductions.SumBounds | analytics/views.py:144-145 | values between lo and hi sum to between n·lo and n·hi |
| Reductions.SumPositive | frontend/src/StaggeredSectorPerformance.jsx:63 | a non-empty list of positive values has a positive sum |
| Reductions.MeanBounds | analytics/views.py:144-145 | the mean of values between lo and hi lies between lo and hi |
| Reductions.MeanPositive | frontend/src/StaggeredSectorPerformance.jsx:63 | the mean of positive values is positive |
| Reductions.MeanBetweenValues | analytics/views.py:144 | some value is at most the mean and some value is at least the mean |
| Ingest.GetCategory | ingest_data.py:22-27 | the category's band contains the rank: Mega below 50, Large from 50 below 100, Mid from 100 below 250, Small from 250 below 500, Micro from 500 on |
| Ingest.GetCategoryMonotone | ingest_data.py:22-27 | a larger rank never gets a larger-cap category |
| Ingest.CategoryCounts | ingest_data.py:29 | with n ranked symbols each category gets exactly as many symbols as its band holds below n (min(50, n) Mega, and so on) |
| Ingest.RankMapKeys | ingest_data.py:30 | the symbol-to-category map has a key exactly for each symbol of the listing |
| Ingest.RankMapLastWins | ingest_data.py:30 | `dict(zip(...))` keeps the category of a symbol's last occurrence, the one at that rank |
| Ingest.GetMcapMap | ingest_data.py:12-30 | the ranked listing is a permutation of the listing in decreasing market-cap order, and the map is built from the ranks of the ranked listing |
| Ingest.FirstRankedIsLargest | ingest_data.py:20 | after the descending sort, rank 0 has the largest market cap |
| Ingest.StripLeadingSpaces | ingest_data.py:49 | stripping the left removes exactly the leading whitespace, where whitespace is every character Python's `str.isspace` accepts (ASCII and Unicode, such as U+00A0 and U+3000) |
| Ingest.StripTrailingSpaces | ingest_data.py:49 | stripping the right removes exactly the trailing whitespace, in the same sense |
| Ingest.StripPadded | ingest_data.py:49 | a trimmed header surrounded by any whitespace, Unicode spaces included, strips back to itself |
| Ingest.StripTrimmed | ingest_data.py:49 | a stripped header has no whitespace at either end, and stripping twice is stripping once |
| Ingest.ReturnHeaderSpellings | ingest_data.py:52-58 | both spellings of the twelve-month return header, with any whitespace padding, become `ret` |
| Ingest.UnknownHeaderKept | ingest_data.py:49-58 | a header that is not a known name keeps its trimmed text |
| Ingest.TruncateToInt | ingest_data.py:71 | `int()` of a float truncates toward zero: below x for x ≥ 0, above x for x < 0, within one |
| Ingest.RecordsAppend | ingest_data.py:60-77 | records of concatenated rows are the concatenated records, so order is kept |
| Ingest.RecordsFields | ingest_data.py:63-77 | every record has the given holding period, a listed symbol whose category is not Micro, that category's name, and the company and sector of a source row, defaulted to `""` and `"Other"` |
| Ingest.RecordsCount | ingest_data.py:60-77 | the number of records equals the number of rows whose symbol is listed with a category other than Micro |
| Ingest.FlattenAppend | ingest_data.py:79-86 | the records of two batch logs laid end to end are the records of each in turn |
| Ingest.ChunksFlatten | ingest_data.py:40-42 | cutting rows into chunks and joining the chunks gives the rows back |
| Ingest.ChunksSizes | ingest_data.py:80-86 | every batch is non-empty and at most 5000 long, and every batch except the last holds exactly 5000 |
| Ingest.ChunksAppend | ingest_data.py:80-86 | batching after a prefix of whole batches batches the prefix and the rest separately |
| Ingest.TradingTable.constructor | analytics/models.py:3-17 | a new table holds no batches |
| Ingest.TradingTable.BulkCreate | ingest_data.py:81 | `bulk_create` appends exactly one batch to the log |
| Ingest.TradingTable.DeleteAll | ingest_data.py:91 | the delete leaves the table empty |
| Ingest.ProcessChunk | ingest_data.py:47-86 | the table gains exactly the rows' records cut into batches of 5000 with the remainder last; the loop keeps the buffer below 5000 and the flushed records followed by the buffer equal to the records so far |
| Ingest.FlattenAfterBatches | ingest_data.py:45 | batching loses and reorders nothing: the stored records grow by exactly the new records |
| Ingest.ProcessPieces | ingest_data.py:40-43 | processing a CSV chunk after chunk stores the records of all the chunks' rows, in order |
| Ingest.IngestFile | ingest_data.py:32-45 | a spreadsheet is processed as one chunk, and either way the stored records grow by exactly the file's records |
| Ingest.RankMapOfPermutation | ingest_data.py:20-30 | the symbols of the map are those of the listing, whatever its order |
| Ingest.Run | ingest_data.py:88-115 | after `run` the table holds exactly the records of the listed files that exist, file after file; the categories come from the ranks of a permutation of the listing in decreasing market-cap order, and the category map has a key for each listed symbol |
| AnalyticsViews.DecimalStringValue | analytics/views.py:46-47 | the decimal text of a natural number is non-empty, all digits, and denotes that number |
| AnalyticsViews.ParseIntParam | analytics/views.py:46-47 | a week parameter written as the decimal text of any integer is read back as that integer |
| AnalyticsViews.FilterRecordsMembers | analytics/views.py:49-64 | a record survives the filter chain exactly when it is in the table and matches every active filter |
| AnalyticsViews.FilterSemantics | analytics/views.py:46-64 | absent week parameters mean 52, the dates bound the breakout date inclusively, and sector or market cap filter only when given, non-empty and not "All" |
| AnalyticsViews.SuccessesMembers | analytics/views.py:67-69 | the successful trades are exactly the records returning at least 20% |
| AnalyticsViews.SuccessesQualify | analytics/views.py:123 | every selected trade returns at least 20% |
| AnalyticsViews.LabelsOfBands | analytics/views.py:78 | the five bands carry exactly the five labels |
| AnalyticsViews.BandOf | analytics/views.py:77-79 | a return of at least 20% is put in a band whose left-closed, right-open interval contains it |
| AnalyticsViews.BandsPartition | analytics/views.py:77-79 | a return lies in a band exactly when it is at least 20% and the band is its band, so every success is in exactly one band |
| AnalyticsViews.RoundHalfEven | analytics/views.py:75 | the rounded duration is within one half of the duration, and an exact half goes to the even neighbour |
| AnalyticsViews.BuildEntries | analytics/views.py:83-88 | one entry per duration, in the given order, each carrying all five labels with the count of that duration and band (0 when none) |
| AnalyticsViews.DashboardGet | analytics/views.py:42-92 | a bad week parameter gives a server error; otherwise the histogram of the successful filtered trades, `[]` when there are none |
| AnalyticsViews.EntriesAreHistogram | analytics/views.py:81-90 | entries built from the distinct sorted durations form the histogram |
| AnalyticsViews.EntriesInDurationOrder | analytics/views.py:90 | the entries are in strictly increasing duration order |
| AnalyticsViews.DistinctDurationsCover | analytics/views.py:81 | every trade's rounded duration has an entry, and every entry's duration is some trade's |
| AnalyticsViews.BandCountsSum | analytics/views.py:79-81 | for successful trades the five band counts of a duration add up to the trades of that duration |
| AnalyticsViews.CountDurationsCovers | analytics/views.py:81 | counting duration by duration over distinct durations that cover every trade counts each trade once |
| AnalyticsViews.TotalCountByDuration | analytics/views.py:84-88 | the counts of the entries sum to the trades of the entries' durations |
| AnalyticsViews.HistogramTotal | analytics/views.py:81-88 | count conservation: the counts of a histogram add up to the number of successful trades |
| AnalyticsViews.DashboardCountsAllSuccesses | analytics/views.py:67-90 | the dashboard chart counts every successful filtered trade exactly once |
| AnalyticsViews.MostProfitable | analytics/views.py:137 | the chosen trade is one of the trades and no trade returns more |
| AnalyticsViews.KpiOfSuccesses | analytics/views.py:125-155 | for a non-empty selection of successes: the count, a trade of maximal return, the mean duration (between the shortest and longest), and the mean of the returns as success rate (between 20 and the best return) |
| AnalyticsViews.KpiProperties | analytics/views.py:94-167 | the KPI object is the zero/"N/A" default exactly when a parameter is bad or nothing qualifies, and otherwise summarises the successful filtered trades, with the mean of their returns as success rate |
| AnalyticsViews.MinDate | analytics/views.py:25 | the earliest breakout date of a non-empty set: attained and at most every date |
| AnalyticsViews.MaxDate | analytics/views.py:26 | the latest breakout date of a non-empty set: attained and at least every date |
| AnalyticsViews.DateRangeGet | analytics/views.py:9-34 | None/None for a bad parameter or no matching trade; otherwise min ≤ max, both attained, bounding every matching breakout date |
| AnalyticsViews.WeeksOnlyMembers | analytics/views.py:16-19 | the date range looks only at trades with the requested holding period and cooldown |
| AnalyticsViews.SectorList | analytics/views.py:36-40 | the sector list is strictly ascending, has no duplicates, and holds exactly the sectors present in the table |
| SectorPerformance.WithAverages | frontend/src/StaggeredSectorPerformance.jsx:39-42 | same number of rows; each keeps its sector and rates and gets as average a quarter of its four rates, absent ones counted as 0 |
| SectorPerformance.WithAveragesIdempotent | frontend/src/StaggeredSectorPerformance.jsx:39-42 | recomputing the averages changes nothing |
| SectorPerformance.AverageWithinRates | frontend/src/StaggeredSectorPerformance.jsx:41 | rates between 0 and hi give an average between 0 and hi |
| SectorPerformance.CapIndex | frontend/src/StaggeredSectorPerformance.jsx:55 | each cap's position in `mcapCategories`, which is Mega, Large, Mid, Small |
| SectorPerformance.AverageDescendingIsTotalPreorder | frontend/src/StaggeredSectorPerformance.jsx:45 | the comparison by average, highest first, is a total preorder |
| SectorPerformance.SortOrderIsTotalPreorder | frontend/src/StaggeredSectorPerformance.jsx:93-97 | both sort comparisons, by average descending and by sector name, are total preorders |
| SectorPerformance.SortedCopy | frontend/src/StaggeredSectorPerformance.jsx:92-97 | the sorted copy is the stable sort of the rows by the requested comparison: a permutation of the rows in that order, rows ranked level keep their previous order, and rows already in order come back unchanged |
| SectorPerformance.AverageSortDescending | frontend/src/StaggeredSectorPerformance.jsx:45 | rows sorted by average have non-increasing averages |
| SectorPerformance.EqualAveragesKeepOrder | frontend/src/StaggeredSectorPerformance.jsx:94 | ranking by average keeps the rows that share an average in the order they had, for instance name order after a sort by name |
| SectorPerformance.NameSortAscending | frontend/src/StaggeredSectorPerformance.jsx:96 | rows sorted by any other kind have sector names in ascending order |
| SectorPerformance.PositiveRatesMembers | frontend/src/StaggeredSectorPerformance.jsx:58-60 | the values averaged for a cap are exactly that cap's strictly positive rates |
| SectorPerformance.PositiveRatesPositive | frontend/src/StaggeredSectorPerformance.jsx:60 | every averaged value is strictly positive |
| SectorPerformance.PositiveRatesEmpty | frontend/src/StaggeredSectorPerformance.jsx:62 | a cap has values to average exactly when some sector has a strictly positive rate for it |
| SectorPerformance.McapAverages | frontend/src/StaggeredSectorPerformance.jsx:54-65 | a cap gets an entry exactly when some sector has a strictly positive rate for it, and the entry is the mean of those rates |
| SectorPerformance.CapMeanBounds | frontend/src/StaggeredSectorPerformance.jsx:63 | a cap's mean is positive and lies between bounds on its positive rates |
| SectorPerformance.EntriesOf | frontend/src/StaggeredSectorPerformance.jsx:68 | `Object.entries` lists exactly the map's pairs |
| SectorPerformance.EntriesInCapOrder | frontend/src/StaggeredSectorPerformance.jsx:55-68 | `Object.entries` lists the caps in strictly increasing `mcapCategories` order |
| SectorPerformance.RankedFirstIsBest | frontend/src/StaggeredSectorPerformance.jsx:45-50 | the first row of the ranking has the greatest average of the response and, of rows tied for it, is the first in response order |
| SectorPerformance.RankedLastIsWorst | frontend/src/StaggeredSectorPerformance.jsx:45-51 | the last row of the ranking has the least average of the response and, of rows tied for it, is the last in response order |
| SectorPerformance.FirstLeastIsBest | frontend/src/StaggeredSectorPerformance.jsx:50 | a response row whose average is at least every average, with every earlier row strictly below it, is the best sector |
| SectorPerformance.LastGreatestIsWorst | frontend/src/StaggeredSectorPerformance.jsx:51 | a response row whose average is at most every average, with every later row strictly above it, is the worst sector |
| SectorPerformance.RankingIsSortedPermutation | frontend/src/StaggeredSectorPerformance.jsx:39-45 | the stable ranking is ordered by average, highest first, and holds exactly the response rows with their averages |
| SectorPerformance.BestAndWorstSector | frontend/src/StaggeredSectorPerformance.jsx:50-51 | the best sector's average is at least, and the worst sector's at most, every row's average |
| SectorPerformance.HasPositivePermutation | frontend/src/StaggeredSectorPerformance.jsx:58-60 | whether a cap has a positive rate does not depend on the row order or on the averages |
| SectorPerformance.NoPositiveRatePermutation | frontend/src/StaggeredSectorPerformance.jsx:58-70 | whether any cap has a positive rate does not depend on the row order or on the averages |
| SectorPerformance.RankedEntries | frontend/src/StaggeredSectorPerformance.jsx:68-70 | the first ranked entry has the greatest mean and the last the least, both taken from the map |
| SectorPerformance.EntryDescendingIsTotalPreorder | frontend/src/StaggeredSectorPerformance.jsx:68 | the comparison of cap entries by mean, highest first, is a total preorder |
| SectorPerformance.FirstLeastIsBestMcap | frontend/src/StaggeredSectorPerformance.jsx:69 | an entry whose mean is at least every mean, with every earlier cap's mean strictly below it, is the best cap |
| SectorPerformance.LastGreatestIsWorstMcap | frontend/src/StaggeredSectorPerformance.jsx:70 | an entry whose mean is at most every mean, with every later cap's mean strictly above it, is the worst cap |
| SectorPerformance.CapExtremes | frontend/src/StaggeredSectorPerformance.jsx:68-70 | the first entry after the stable sort by mean is the earliest entry with the greatest mean, and the last is the latest entry with the least mean |
| SectorPerformance.FirstEntryIsBest | frontend/src/StaggeredSectorPerformance.jsx:69 | the first ranked cap has the greatest mean and, of caps tied for it, is the first in Mega, Large, Mid, Small order |
| SectorPerformance.LastEntryIsWorst | frontend/src/StaggeredSectorPerformance.jsx:70 | the last ranked cap has the least mean and, of caps tied for it, is the last in Mega, Large, Mid, Small order |
| SectorPerformance.EntriesCoverPositive | frontend/src/StaggeredSectorPerformance.jsx:68 | the cap entries are empty exactly when no cap has a positive rate |
| SectorPerformance.McapKpis | frontend/src/StaggeredSectorPerformance.jsx:54-70 | no result exactly when no cap has a positive rate; otherwise the cap with the greatest mean, the first of tied caps in Mega, Large, Mid, Small order, and the cap with the least mean, the last of tied caps |
| SectorPerformance.ProcessResponse | frontend/src/StaggeredSectorPerformance.jsx:38-81 | rejected exactly when there are rows but no positive rate; otherwise the stable ranking by average of the rows with averages, with KPIs exactly when there are rows: the best sector is the first in response order of those with the greatest average, the worst the last of those with the least, and the best and worst cap |
| SectorPerformance.ExampleRanking | frontend/src/StaggeredSectorPerformance.jsx:39-45 | a sector with rates 80 and 60 averages 35 and ranks below one with 50 everywhere |
| SectorPerformance.SectorPerformanceView.constructor | frontend/src/StaggeredSectorPerformance.jsx:16-25 | the initial state: no rows, loading, no error, sorted by average, all KPIs "-" and 0 |
| SectorPerformance.SectorPerformanceView.Load | frontend/src/StaggeredSectorPerformance.jsx:35-88 | a failed request or a rejection sets the error and keeps rows and KPIs; otherwise the stable ranking by average is stored and the KPIs replaced when there are rows, the sector ties settled by response order; loading ends either way |
| SectorPerformance.SectorPerformanceView.HandleSort | frontend/src/StaggeredSectorPerformance.jsx:90-99 | records the kind; the rows become their stable sort by it (a permutation in that order, with level rows in their previous order), unchanged if already in that order, so sorting twice equals sorting once; nothing else changes |
| SectorPerformance.SectorPerformanceView.ChartHeight | frontend/src/StaggeredSectorPerformance.jsx:128 | at least 600 and at least 35 pixels a row, equal to 600 exactly when 35 a row fits in 600 |

## Left out

- HTTP, React and rendering: axios, `useState`/`useEffect`, the chart, tooltips, colours and styles. `StaggeredChart.jsx` and `App.jsx` only fetch and render and are not part of this model. A failed request is the `None` response of `Load`.
- Display formatting is not modelled: `toFixed(1)` in the KPI tiles and `round(..., 1)` / `round(..., 2)` in the KPI view. KPI values are the exact unrounded reals.
- Floating point: rates, returns, durations and means are exact reals, so NaN, infinities and float rounding error are not modelled. Market caps that fail to parse (coerced to NaN) are assumed absent.
- pandas and Django internals: DataFrames, `pd.cut`, `groupby`/`unstack`, querysets and database indexes. Tables are sequences of records and querysets are filters over them.
- File and database I/O: reading spreadsheets and CSV files, `os.path.exists`, and the database behind `bulk_create`. The files present on disk are a map from name to rows, and the table is an append-only log of batches.
- Ingest.GetMcapMap: pandas' `sort_values` sorts with an unstable quicksort by default, so the contract promises some decreasing market-cap order and not which of two equal market caps ranks first. The model's sort happens to be stable.
- AnalyticsViews.MostProfitable: picks the first trade of maximal return, whereas the database leaves the tie order of `order_by('-return_percentage').first()` unspecified. The contract states only that the choice is maximal.
- `localeCompare` and the database's collation are modelled as character-code lexicographic order.
- Dates are day numbers: `pd.to_datetime`, `strftime` and malformed date parameters are not modelled. An empty date parameter is treated as absent, like the `if start:` test.
- AnalyticsViews.ParseInt: covers Python `int()` on an optional sign and ASCII digits. Whitespace, underscores and non-ASCII digits are not accepted.
- Ingest rows come with their columns already renamed (`SourceRow`). A file missing a required column (`sym`, `cool`, `date`, `dur`, `ret`) raises `KeyError` in the source, and that path is not modelled. `row.get` on a present column holding an empty cell (NaN) is not modelled either. The header renaming itself is modelled separately by `Ingest.ColumnLabel`.
- Logging is not modelled: the progress prints of `get_mcap_map`, `ingest_file`, `process_chunk` and `run` in `ingest_data.py`, and the error and traceback that `KPIDataView` prints before answering with its defaults (`analytics/views.py:158-161`).
- Ingest.ProcessChunk: a cell that `int()`, `float()` or `pd.to_datetime` cannot convert raises in the source (`ingest_data.py:71-76`). That stops `run`, and the batches already written stay in the table. The model assumes every cell converts, so its contracts describe only complete ingests.
- `DashboardDataView`'s 500 response is modelled only for bad week parameters. Other exceptions of the source, such as database failures, are not modelled.
- `analytics/management/commands/debug_kpi.py` only prints, and `analytics/urls.py` and `frontend/vite.config.js` are configuration. None of them is part of this model.
- Concurrency between overlapping requests (a late response overwriting a newer one) is not modelled: each `Load` is one complete response.
