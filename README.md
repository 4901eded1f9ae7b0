# Marketing dashboard data engine, in Dafny

This project models the data engine behind a React marketing-analytics
dashboard. It covers:

- the campaign table's query pipeline: a case-insensitive search, channel and
  status selects, a column sort, 10-row pages, the option lists of the two
  selects and the CSV export;
- the table's interactive state: the sort headers and the page buttons;
- the dashboard page's inclusive date-range filter and how its result feeds
  the metric cards, the top-campaigns bar chart and the table;
- the synthetic data generators and the aggregate metrics;
- the data hook: its initial state, the refresh sequence and the 30-second
  live-update tick;
- the bar chart's in-place sort by revenue, its top-ten selection, its
  15-character name truncation and its element id.

Modules, one per concern:

| file | module | what it holds |
|---|---|---|
| types.dfy | `Types` | `MetricData`, `ChartData`, `ChannelData`, `Status`, days as integers |
| seqs.dfy | `Seqs` | `filter`, sub-sequences, `[...new Set(...)]` |
| text.dfy | `Text` | `toLowerCase`, `includes`, `localeCompare`, `String(n)`, `toFixed`, `join`/`split`, the `\s` class |
| sorting.dfy | `Sorting` | a stable sort over any comparator, with its laws |
| query.dfy | `Query` | filter → sort → page, the select options |
| csv.dfy | `Csv` | the exported CSV text, and reading it back |
| table.dfy | `Table` | the table's state as a class with its handlers |
| mockdata.dfy | `MockData` | the generators and `calculateMetrics` |
| livedata.dfy | `LiveData` | the tick and the hook's state as a class |
| barchart.dfy | `BarChart` | the in-place sort on an array, the top ten, the chart id |
| dashboard.dfy | `Dashboard` | the date range and one render of the page |

Every `Math.random()` draw is a parameter in [0, 1). `Math.sin(i / 7)` is a
parameter in [-1, 1]. The current date is a day number `today`.

Behaviour the proofs bring out, as the code has it:

- `data.sort` in the bar chart sorts the page's `filteredCampaigns` array in
  place. The table then receives that same array in revenue order.
  `Dashboard.Render` models this order. `Dashboard.TableIgnoresChartSort`
  shows the table's rows do not change when it is sorted on revenue.
- The Next button is disabled only when `currentPage == totalPages`. On a
  table with no rows it moves page 1 to page 0, whose slice is empty.
- Changing the search term or a select does not reset the page, so the page
  can end up beyond the last one and show no rows.
- `avgGrowth` of no records divides 0 by 0, which gives NaN in the code. It
  is `None` here.
- The CSV quotes the name and the channel without escaping anything inside
  them, so reading the file back is proved only for rows whose name and
  channel hold neither `,` nor a newline.

## Model

| member | source | states |
|---|---|---|
| Seqs.Distinct | src/components/table/DataTable.tsx:27-28 | `[...new Set(xs)]` has no duplicates, holds only values of `xs`, and holds every value of `xs` |
| Seqs.DistinctOrder | src/components/table/DataTable.tsx:27-28 | `[...new Set(xs)]` lists the values in the order of their first occurrences in `xs` |
| Seqs.FilterMultiset | src/components/table/DataTable.tsx:33-37 | `filter` keeps each element as often as the input has it when the predicate holds, and drops it otherwise |
| Seqs.FilterSubsequence | src/pages/Dashboard.tsx:22 | the result of `filter` is an order-preserving sub-sequence of its input |
| Seqs.FilterCommute | src/components/table/DataTable.tsx:33-37 | two filters applied in either order give the same list |
| Seqs.FilterBoth | src/pages/Dashboard.tsx:26 | filtering by one predicate and then by another is filtering by their conjunction |
| Text.Lower | src/components/table/DataTable.tsx:34 | `toLowerCase` keeps the length and maps each character on its own |
| Text.LowerIdempotent | src/components/table/DataTable.tsx:34 | lower-casing an already lower-cased string changes nothing |
| Text.LowerConcat | src/components/charts/BarChart.tsx:16 | lower-casing a concatenation lower-cases each part |
| Text.IncludesIff | src/components/table/DataTable.tsx:34 | `hay.includes(needle)` holds exactly when `needle` occurs at some index of `hay` |
| Text.LexCompare | src/components/table/DataTable.tsx:44-45 | `localeCompare` returns -1, 0 or 1 |
| Text.LexCompareZero | src/components/table/DataTable.tsx:44-45 | two strings compare as 0 exactly when they are equal |
| Text.LexCompareFlip | src/components/table/DataTable.tsx:44-45 | swapping the operands negates the result |
| Text.LexCompareTransitive | src/components/table/DataTable.tsx:44-45 | the string order is transitive |
| Text.NatToStringValue | src/components/table/DataTable.tsx:78-80 | the decimal numeral of a natural number is non-empty, all digits, without a leading zero, and denotes the number |
| Text.IntToStringValue | src/components/table/DataTable.tsx:78-80 | the numeral of a negative integer is `-` and then the numeral of its magnitude |
| Text.RoundScaledError | src/components/table/DataTable.tsx:81-85 | the integer that `toFixed(f)` prints is within half a unit of `x * 10^f`, rounding ties up |
| Text.FixedDigitsShape | src/components/table/DataTable.tsx:81-85 | `toFixed(f)` for f >= 1 prints integer digits, a point and exactly `f` fraction digits that together denote the rounded value |
| Text.SplitJoin | src/components/table/DataTable.tsx:75-87 | splitting a `join` on its separator gives the parts back when no part contains it |
| Text.DashRunsNoWhitespace | src/components/charts/BarChart.tsx:16 | `replace(/\s+/g, '-')` leaves no whitespace |
| Text.DashRunsSplit | src/components/charts/BarChart.tsx:16 | one run of whitespace between two parts becomes exactly one `-` |
| Sorting.Sort | src/components/table/DataTable.tsx:38-53 | the sort keeps the length of its input |
| Sorting.SortCorrect | src/components/table/DataTable.tsx:38-53 | for an antisymmetric, transitive comparator the result is in comparator order and is a permutation of the input |
| Sorting.SortStable | src/components/table/DataTable.tsx:38-53 | elements that compare equal keep their input order |
| Sorting.SortSortedIdentity | src/components/table/DataTable.tsx:38-53 | sorting a sequence that is already in order changes nothing |
| Sorting.StableSortUnique | src/components/table/DataTable.tsx:38-53 | any two ordered, stable permutations of the same input are equal |
| Sorting.SortIsTheStableSort | src/components/table/DataTable.tsx:38-53 | any ordered, stable permutation of the input, such as that of the engine's own sort, is `Sort`'s result |
| Sorting.InsertLastPosition | src/components/charts/BarChart.tsx:27-28 | an element that moves left past exactly the elements it must precede lands where the stable sort inserts it |
| Query.CompareKeys | src/components/table/DataTable.tsx:38-53 | values of different types compare as 0, and numbers compare by subtraction in the chosen direction |
| Query.CompareZero | src/components/table/DataTable.tsx:38-53 | two rows tie exactly when their cells in the sort column are equal |
| Query.RowComparatorLawful | src/components/table/DataTable.tsx:38-53 | the column comparator is antisymmetric and transitive in both directions on every column |
| Query.SortRecordsCorrect | src/components/table/DataTable.tsx:38-53 | `SortRecords`, the table's sort: the sorted rows are in column order and are a permutation of the input |
| Query.SortRecordsStable | src/components/table/DataTable.tsx:38-53 | for each cell value, the rows holding it appear in the input's order |
| Query.SortRecordsUnique | src/components/table/DataTable.tsx:38-53 | an ordered, stable permutation of the rows is exactly their sorted list |
| Query.SortOrderedIdentity | src/components/table/DataTable.tsx:38-53 | rows already in column order stay as they are |
| Query.NumericOrder | src/components/table/DataTable.tsx:48-50 | on a numeric column `desc` gives non-increasing values and `asc` non-decreasing ones |
| Query.FilterRecordsSpec | src/components/table/DataTable.tsx:32-37 | `FilterRecords`, the table's filter, keeps exactly the matching rows, as often as the data has them and in order; each kept row contains the lower-cased term and has the selected channel and status |
| Query.EmptyQueryKeepsAll | src/components/table/DataTable.tsx:33-37 | with no search and both selects on "All", every row passes in order |
| Query.FilteredDataSpec | src/components/table/DataTable.tsx:31-54 | `FilteredData`, the table's `filteredData`, holds exactly the data rows that match, is in column order, and is a stable permutation of the matching rows |
| Query.TotalPages | src/components/table/DataTable.tsx:57 | `Math.ceil(n / 10)`: the least page count whose pages hold `n` rows |
| Query.SliceIndex | src/components/table/DataTable.tsx:58-61 | a `slice` position is clamped to [0, length], negative values counting from the end |
| Query.PageOfSpec | src/components/table/DataTable.tsx:58-61 | `PageOf`, the table's `paginatedData`: a page holds at most 10 rows; page p holds rows (p-1)*10 up to min(p*10, n); it is non-empty up to `totalPages`; page 0 and pages beyond the last are empty |
| Query.PagesPrefix | src/components/table/DataTable.tsx:58-61 | pages 1 to k, one after another, are the first min(10k, n) rows |
| Query.PagesCoverAll | src/components/table/DataTable.tsx:57-61 | pages 1 to `totalPages` show every row exactly once, in order |
| Query.ChannelsSpec | src/components/table/DataTable.tsx:27 | `Channels`, the channel select, offers each channel of the data exactly once, and nothing else |
| Query.StatusesSpec | src/components/table/DataTable.tsx:28 | `Statuses`, the status select, offers each status of the data exactly once, and nothing else |
| Csv.Quote | src/components/table/DataTable.tsx:77 | a quoted cell is the text between two double quotes, with nothing escaped |
| Csv.RowFields | src/components/table/DataTable.tsx:76-86 | a row has as many cells as there are headers |
| Csv.CsvLines | src/components/table/DataTable.tsx:74-87 | the file has one line more than `filteredData` has rows |
| Csv.FieldsFree | src/components/table/DataTable.tsx:76-86 | numbers, `toFixed` numerals and status strings hold no separator, so a cell holds one only if the name or the channel does |
| Csv.RowLineSplit | src/components/table/DataTable.tsx:76-86 | a row line splits back on `,` into its nine cells when name and channel contain no `,` |
| Csv.HeaderLineSplit | src/components/table/DataTable.tsx:73-75 | the header line holds no newline and splits back into the nine header names |
| Csv.CsvContentLines | src/components/table/DataTable.tsx:73-87 | `CsvContent`, the exported text, splits on newlines into the header line and then one line per row in `filteredData` order; each line splits back into that row's cells |
| Table.SortToggle | src/components/table/DataTable.tsx:63-70 | clicking the current column flips its direction; clicking another column selects it in descending order |
| Table.SortToggleTwice | src/components/table/DataTable.tsx:63-70 | two clicks on the same column restore the sort |
| Table.SortToggleNewColumn | src/components/table/DataTable.tsx:63-70 | a new column always starts descending, whatever the direction before |
| Table.PrevPage | src/components/table/DataTable.tsx:256-257 | Previous never goes below page 1 and goes back one page from any page above 1 |
| Table.NextPage | src/components/table/DataTable.tsx:282-283 | Next moves one page forward below `totalPages` and lands on `totalPages` otherwise, never below 0 from a page at or above 0 |
| Table.NextOnEmptyTable | src/components/table/DataTable.tsx:282-283 | with no matching rows Next moves to page 0, whose slice is empty |
| Table.PagesStayInRange | src/components/table/DataTable.tsx:256-283 | from an existing page both buttons stay on existing pages, and Previous undoes Next except on the last page |
| Table.DataTable.constructor | src/components/table/DataTable.tsx:18-23 | starts with no search, revenue descending, both selects on "All", page 1 |
| Table.DataTable.HandleSort | src/components/table/DataTable.tsx:63-70 | the new sort is the toggle of the old one; nothing else changes |
| Table.DataTable.Previous | src/components/table/DataTable.tsx:256-257 | the page becomes `PrevPage` of the old page; nothing else changes |
| Table.DataTable.Next | src/components/table/DataTable.tsx:282-283 | the page becomes `NextPage` of the old page and the current page count; nothing else changes |
| Table.DataTable.GoToPage | src/components/table/DataTable.tsx:263-268 | a numbered button, one of the first min(5, totalPages), shows a non-empty page of at most 10 rows |
| Table.DataTable.SetSearchTerm | src/components/table/DataTable.tsx:139-140 | only the search term changes; the page is kept |
| Table.DataTable.SetFilterChannel | src/components/table/DataTable.tsx:147-148 | only the channel select changes; the page is kept |
| Table.DataTable.SetFilterStatus | src/components/table/DataTable.tsx:158-159 | only the status select changes; the page is kept |
| Table.DataTable.ViewSpec | src/components/table/DataTable.tsx:31-61 | for the table's state, `Filtered` (`filteredData`) holds exactly the matching rows, as often as the filter keeps them, in the current column order; `PageCount` (`totalPages`) is the fewest pages of 10 that hold them; `Paginated` (`paginatedData`) has at most 10 rows and, on an existing page, is that page's non-empty slice |
| Table.DataTable.CsvExportLines | src/components/table/DataTable.tsx:72-87 | `CsvExport` (`exportToCSV`) writes all of `filteredData`, not just the page: when no name or channel holds `,` or a newline, the file is the header line and then one line per filtered row in order, each splitting back into that row's cells |
| MockData.Scaled | src/data/mockData.ts:12-19 | `Math.floor(random * n)` is an index in [0, n) |
| MockData.GenerateRecordPlausible | src/data/mockData.ts:10-22 | `GenerateRecord`: record i has id i+1 and a name that is a campaign type, a space and its id; revenue is in [5000, 54999], users in [1000, 10999], conversions in [50, 549]; growth is in [-10, 30), CTR in [1, 6), CPC in [0.5, 3.5); the date is within the last 90 days; the channel is one of the seven |
| MockData.GenerateCampaignData | src/data/mockData.ts:5-23 | exactly `count` records |
| MockData.GenerateCampaignDataSpec | src/data/mockData.ts:10-22 | ids run 1..count in order, so they are distinct and cover exactly 1..count, and every record is in range |
| MockData.GenerateChartData | src/data/mockData.ts:26-38 | exactly `days` points |
| MockData.GenerateChartDataSpec | src/data/mockData.ts:27-36 | `GenerateChartData`, point i made by `GeneratePoint`: one point per day, the last `days` days in order up to today, revenue in [9500, 20499] |
| MockData.ChannelSharesTotal | src/data/mockData.ts:41-50 | `GenerateChannelData` gives six slices, each positive, summing to 100 |
| MockData.CalculateMetrics | src/data/mockData.ts:53-65 | no records give zero totals and no average; any records give an average |
| MockData.SumByAppend | src/data/mockData.ts:54-56 | a total over two lists together is the sum of their totals |
| MockData.SumByPermutation | src/data/mockData.ts:54-56 | a total does not depend on the order of the records |
| MockData.SumRealPermutation | src/data/mockData.ts:57 | the growth sum does not depend on the order of the records |
| MockData.MetricsPermutation | src/data/mockData.ts:53-65 | the metrics of a permutation of the records are the same metrics |
| MockData.MetricsAppend | src/data/mockData.ts:54-56 | the three totals add up over the parts of a list |
| MockData.SumByBounds | src/data/mockData.ts:54-56 | a total of n records each in [lo, hi] lies in [n*lo, n*hi] |
| MockData.AvgGrowthBounds | src/data/mockData.ts:57 | the average growth of records with growth in [lo, hi] lies in [lo, hi] |
| MockData.GeneratedMetricsBounds | src/data/mockData.ts:53-65 | the metrics of 100 fresh records: revenue in [500000, 5499900], users in [100000, 1099900], conversions in [5000, 54900], average growth in [-10, 30] |
| LiveData.Delta | src/hooks/useData.ts:30-32 | `Math.floor((random - 0.5) * m)` lies in [-m/2, m/2) |
| LiveData.PerturbRecord | src/hooks/useData.ts:28-33 | a tick changes only revenue, users and conversions, by [-500, 499], [-50, 49] and [-5, 4], without clamping |
| LiveData.Tick | src/hooks/useData.ts:28 | a tick keeps the length of the list |
| LiveData.TickSpec | src/hooks/useData.ts:28-33 | a tick keeps the order and all other fields of each record, and moves the three counts within the per-tick ranges |
| LiveData.TickAllDrift | src/hooks/useData.ts:27-34 | after k ticks every count is within k times the per-tick range of its start, and all other fields are unchanged |
| LiveData.DataStore.constructor | src/hooks/useData.ts:6-9 | empty lists and loading |
| LiveData.DataStore.RefreshData | src/hooks/useData.ts:11-13 | loading starts and one more reload is pending; the lists keep their contents |
| LiveData.DataStore.Mount | src/hooks/useData.ts:23-27 | the mount effect starts a refresh and installs the interval |
| LiveData.DataStore.PressRefresh | src/components/layout/Header.tsx:74-75 | the refresh button is disabled while loading, so at most one reload is ever pending |
| LiveData.DataStore.CompleteRefresh | src/hooks/useData.ts:15-20 | the timeout replaces the lists with 100 records, 30 points and the six channel shares, and loading ends |
| LiveData.DataStore.LiveTick | src/hooks/useData.ts:27-33 | the interval replaces the records by their tick; nothing else changes |
| LiveData.DataStore.Teardown | src/hooks/useData.ts:36 | the cleanup removes the interval; nothing else changes |
| LiveData.FirstLoad | src/hooks/useData.ts:6-24 | from mount to the first data, the hook is loading, then holds 100 in-range records numbered 1..100, 30 points for the last 30 days up to today with revenue in [9500, 20499], and 6 shares, and is no longer loading |
| BarChart.SortByRevenueDesc | src/components/charts/BarChart.tsx:27-28 | sorting the array in place leaves it equal to the stable revenue-descending sort of its old contents |
| BarChart.InsertAt | src/components/charts/BarChart.tsx:27-28 | one insertion pass puts the next row where the stable sort inserts it and leaves the rest of the array alone |
| BarChart.TruncateName | src/components/charts/BarChart.tsx:31-33 | a name longer than 15 characters becomes its first 15 and `...`, 18 in all; shorter names are unchanged |
| BarChart.ToEntry | src/components/charts/BarChart.tsx:30-35 | a bar copies the revenue and conversions and shortens the name |
| BarChart.TopEntries | src/components/charts/BarChart.tsx:29-36 | the bars are the first min(10, n) sorted rows, in order |
| BarChart.TopCampaigns | src/components/charts/BarChart.tsx:27-36 | the caller's array ends up sorted and the bars are its first ten rows |
| BarChart.TopEntriesSpec | src/components/charts/BarChart.tsx:27-29 | at most 10 bars, in non-increasing revenue, from a permutation of the rows; no row left out has more revenue than a bar |
| BarChart.TopEntriesAreTop | src/components/charts/BarChart.tsx:27-29 | each input row is a bar or has no more revenue than any bar |
| BarChart.ChartIdShape | src/components/charts/BarChart.tsx:16 | `ChartId`, `bar-chart-` and the `Slug` of the title: the id is `bar-chart-` and then text without whitespace; a title without whitespace is only lower-cased |
| BarChart.ChartIdWords | src/components/charts/BarChart.tsx:16 | words separated by one run of whitespace are joined by exactly one `-` |
| Dashboard.FilterByDateSpec | src/pages/Dashboard.tsx:22-27 | `FilterByDate`: a record passes exactly when there is no start or its date is on or after it, and there is no end or its date is on or before it; the result keeps the order and multiplicity |
| Dashboard.NoBoundsKeepsAll | src/pages/Dashboard.tsx:24-26 | with both dates empty every record passes |
| Dashboard.EmptyRange | src/pages/Dashboard.tsx:24-26 | a start after the end lets nothing through |
| Dashboard.BoundsCompose | src/pages/Dashboard.tsx:26 | the two bounds act independently: start then end is both |
| Dashboard.Render | src/pages/Dashboard.tsx:22-107 | the cards get the metrics of the records in range; the chart sorts them in place, and the table receives them in revenue order; the bars are the first ten |
| Dashboard.RenderAgrees | src/pages/Dashboard.tsx:30-107 | cards, chart and table show the same records: the table's rows are a permutation of those in range with the same metrics, and every bar is one of them |
| Dashboard.TableIgnoresChartSort | src/pages/Dashboard.tsx:99-107 | sorted on revenue, the table shows the same rows in the same order whether or not the chart sorted its input first |

## Left out

- Rendering, markup, CSS and the React machinery. This covers `Header`, `Card`, `Logo`, `Skeleton`, `MetricCard`, `DateRangeFilter`, `LineChart` and `DonutChart`.
- The loading skeletons. They are markup.
- The PDF export (src/utils/exportUtils.ts) and the Blob download of the CSV. They are foreign DOM, canvas and PDF calls; the model stops at the CSV text.
- The theme context. It is storage and DOM I/O around one boolean.
- `setTimeout`, `setInterval` and `clearInterval`. The timeout firing, each tick and the cleanup are explicit methods; the 1.5 s and 30 s delays are not modelled.
- `Math.random()` and `Math.sin`. They are parameters; the generators and the methods that call them require their ranges.
- date-fns `format`/`subDays` and `new Date(...)` parsing. Dates are day numbers; the chart axis labels (`MMM dd`) and unparseable date strings are not modelled.
- IEEE floating point. `growth`, `ctr`, `cpc` and the average are exact reals and the counts are unbounded integers; rounding error and overflow are outside the model.
- `toFixed` for magnitudes of 10^21 and above, which switches to exponential notation. Generated values never get there.
- `toLocaleString` on the metric cards. It is presentation.
- `localeCompare` locale rules. Strings compare in plain character order.
- `toLowerCase` beyond ASCII letters. Other characters map to themselves.
- Sorting the table by `id`, `date`, `ctr` or `cpc`. The type allows it, but no header reaches those columns.
- `Query.FilterRecordsSpec`: the containment clause is stated with `Includes`; `Text.IncludesIff` links that to an occurrence at an index.
- `BarChart.TruncateName`: counts characters as Unicode scalar values, while `length` and `substring` count UTF-16 code units, so a name with characters outside the Basic Multilingual Plane is cut at a different place.
- `Csv.CsvContentLines`: requires that names and channels contain no `,` and no newline, because the code quotes them without escaping.
- `Table.DataTable.CsvExportLines`: requires the same of every row, for the same reason.
- `MockData.CalculateMetrics`: gives `None` as the average of no records where the code computes NaN.
