# Bakery sales dashboard — a Dafny model of its data path

`sales_dashboard.py` is a Streamlit dashboard for a bakery's point-of-sale
exports. Each daily export file is named after its date (`sales_20240601.xlsx`).
The dashboard turns the line items in those files into the figures it shows:

- it picks the files of a date range by the date in their names;
- it reads each file's rows and gives every row a sale date;
- it cleans the product names and sorts every product into one of ten bakery
  categories;
- it groups revenue and quantity by hour, product, category and week;
- it ranks products and draws a top-6 donut with an "Others" slice;
- it compares two periods with percent changes, a change table and the
  movement of products in the top-10 list.

This project models that data path in Dafny and proves what each step
promises. It is organised as follows.

| module | file | what it models |
|---|---|---|
| `Wrappers` | wrappers.dfy | `Option` and `Result` |
| `Text` | text.dfy | Python's `strip`, `upper`, substring `in`, `str(int)`, `zfill` |
| `Dates` | dates.dfy | proleptic Gregorian dates, validity, day numbers |
| `FilenameDate` | filename_date.dfy | `extract_date_from_filename` |
| `Categories` | categories.dfy | `get_bakery_category` and its ordered rule table |
| `Names` | names.dfy | `clean_product_name` |
| `Seqs` | seqs.dfy | order-preserving filters (boolean masks) |
| `Ingest` | ingest.dfy | file selection, the row loops and the cleaning of `process_gdrive_files` / `process_files` |
| `Aggregation` | aggregation.dfy | group-by sums, the average-price guard and the quick filters |
| `Sorting` | sorting.dfy | descending sorts, specified up to the order of ties |
| `Ranking` | ranking.dfy | the top-6 donut with "Others" and the top-10 rank movement |
| `Buckets` | buckets.dfy | analysis mode, month-relative weeks and their labels |
| `Weeks` | weeks.dfy | the `WeekYear` column and the ISO 8601 week it means |
| `Comparison` | comparison.dfy | period totals with percent change and the change tables |

Money and quantities are `real`, so sums are exact. The model does not
reproduce floating-point rounding. Text is `seq<char>`.

The model follows the code where it differs from what its names and
comments suggest:

- Cleaning a product name is not idempotent. `"TMB TMB Loaf"` cleans to
  `"TMB Loaf"`, and that cleans to `"Loaf"` (`Names.NotIdempotent`).
- The header percentage is 0 unless the first period's total is `> 0`. A
  negative total also gives 0 (`Comparison.PercentChange`).
- `WeekYear` puts the calendar year beside the ISO week number
  (`Weeks.WrittenWeekYear`). It does not use the ISO week-numbering year.
  This describes a load in which every row is dated; see "Left out" for the
  float-formatted labels pandas writes otherwise.
- The cleaning reads `Description`, `ExtendedNetAmount`, `Quantity` and
  `Hour_ID` without a `try`. When no file that was read has one of them,
  the load raises `KeyError` instead of returning a message
  (`Ingest.LoadError.KeyError`, `Ingest.CombineNeedsColumns`).
- `pd.to_datetime(..., format='%Y%m%d')` also rejects dates outside pandas'
  nanosecond timestamp range (1677-09-22 to 2262-04-11). The filename date
  therefore requires that range too (`FilenameDate.Acceptable`).

## Model

| member | source | states |
|---|---|---|
| Text.TrimStart | sales_dashboard.py:292 | the result is a suffix of the input; it is empty or starts with a non-space; everything dropped is whitespace |
| Text.TrimEnd | sales_dashboard.py:292 | the result is a prefix of the input; it is empty or ends with a non-space; everything dropped is whitespace |
| Text.Trim | sales_dashboard.py:327 | `strip()` leaves no leading or trailing whitespace |
| Text.TrimOfTrimmed | sales_dashboard.py:330 | stripping a stripped string changes nothing |
| Text.TrimIsSlice | sales_dashboard.py:327 | `strip()` returns a contiguous slice of its input |
| Text.Upper | sales_dashboard.py:292 | `upper()` keeps the length and maps each character on its own (a–z to A–Z, others unchanged) |
| Text.UpperIdempotent | sales_dashboard.py:292 | upper-cased text holds no letter a–z, and upper-casing it again changes nothing |
| Text.UpperKeepsSpace | sales_dashboard.py:292 | upper-casing neither creates nor removes whitespace, so upper and strip commute |
| Text.ContainsAt | sales_dashboard.py:296 | substring `in` holds iff the pattern occurs at some position |
| Text.MissingChar | sales_dashboard.py:296-321 | a pattern holding a character the text lacks does not occur in it |
| Text.DecimalRoundTrip | sales_dashboard.py:406 | `str(n)` of a natural number reads back as `n` |
| Text.ZeroFill | sales_dashboard.py:406 | `zfill(w)` pads with `'0'` on the left to width `w` and keeps the original as the suffix |
| Text.PaddedValue | sales_dashboard.py:406 | zero padding does not change the number a digit string denotes |
| Dates.DaysInMonth | sales_dashboard.py:285 | a month has 28 to 31 days; February has 29 exactly in a leap year |
| Dates.MonthsFillYear | sales_dashboard.py:542 | the twelve months add up to the year's length (365 or 366) |
| Dates.DayNumberIncreasing | sales_dashboard.py:542 | an earlier calendar date has a smaller day number, so `max - min` counts days |
| Dates.DayNumberInjective | sales_dashboard.py:542 | distinct valid dates have distinct day numbers |
| FilenameDate.FirstDigitRun | sales_dashboard.py:282 | `re.search(r'(\d{8})')` finds the leftmost position where eight digits start, or reports that there is none |
| FilenameDate.ExtractDate | sales_dashboard.py:280-288 | a date comes back iff the leftmost eight-digit run reads as an acceptable YYYYMMDD date; the date returned is the one read from that leftmost run, with no eight-digit run before it |
| FilenameDate.StampRoundTrip | sales_dashboard.py:285 | writing a date as eight YYYYMMDD digits and reading them back gives the date |
| FilenameDate.ReadFields | sales_dashboard.py:285 | the `%Y%m%d` fields are read from positions 0–3, 4–5 and 6–7 |
| FilenameDate.ExtractWindow | sales_dashboard.py:280-288 | after a digit-free prefix, the first eight digits decide the result alone: their date if acceptable, else none |
| FilenameDate.ExtractStamped | sales_dashboard.py:280-288 | a name made of a digit-free prefix, a date's stamp and anything after extracts to that date |
| FilenameDate.SalesExportName | sales_dashboard.py:280-288 | `sales_20240601.xlsx` extracts to 1 June 2024 |
| FilenameDate.NotACalendarDay | sales_dashboard.py:284-287 | `99999999` is not a date, so the parse failure yields none |
| Categories.Label | sales_dashboard.py:290-323 | every category is shown as one of the ten labels |
| Categories.LabelsDistinct | sales_dashboard.py:290-323 | different categories have different labels |
| Categories.Key | sales_dashboard.py:292 | the normalised key has no surrounding whitespace |
| Categories.CategorizeKey | sales_dashboard.py:293 | `Ignore` exactly when the normalised key is empty, `NAN` or `BLANK` |
| Categories.FirstMatch | sales_dashboard.py:295-323 | the first rule that fires decides; with none firing the result is the fallback |
| Categories.RuleTableFires | sales_dashboard.py:296-321 | each rule of the table fires exactly when its `if` condition holds |
| Categories.CategorizeFollowsRuleTable | sales_dashboard.py:292-323 | for a non-placeholder key the categoriser is first-match over the ordered table, defaulting to `Other` |
| Categories.PlaceholdersHoldNoBakeAtHomeMarker | sales_dashboard.py:293-297 | no placeholder key holds a bake-at-home marker, so the two first rules never compete |
| Categories.BakeAtHomeWins | sales_dashboard.py:295-297 | any label with a bake-at-home marker is Bake at Home, whatever later markers it also holds |
| Categories.LoafSplit | sales_dashboard.py:303-305 | a label reaching the loaf rule is XL Loaves iff it contains `XL`, else Standard Loaves |
| Categories.CaseInsensitive | sales_dashboard.py:292 | the category does not depend on letter case |
| Categories.BakeAtHomeEscargot | sales_dashboard.py:295-309 | "BAH Escargot" is Bake at Home, not Pastries |
| Categories.PlainEscargot | sales_dashboard.py:307-309 | a plain "Escargot" is Pastries |
| Names.CleanProductName | sales_dashboard.py:325-330 | the result is stripped; an unbranded stripped name is returned as is; a branded one loses its first four characters and is stripped again |
| Names.NotIdempotent | sales_dashboard.py:325-330 | a doubly branded name loses one marker per cleaning, so cleaning twice differs from cleaning once |
| Names.OneBrandPrefix | sales_dashboard.py:328-329 | `"TMB " + rest` cleans to `rest` |
| Names.AnyCase | sales_dashboard.py:328 | the marker is recognised in any letter case |
| Names.IdempotentUnlessBranded | sales_dashboard.py:325-330 | cleaning again changes nothing unless the cleaned name itself starts with the marker |
| Names.BrandedClean | sales_dashboard.py:328-330 | a stripped branded name cleans to its text after the marker, stripped |
| Ingest.FilterByDate | sales_dashboard.py:342-352 | the loop keeps exactly the files of `FilesInRange`, in their order |
| Seqs.FilterMembership | sales_dashboard.py:399 | a boolean-mask selection keeps an element iff it is in the input and passes the mask |
| Seqs.FilterMapMembership | sales_dashboard.py:393-399 | a value is in a filter-and-map result iff some input item maps to it; every item that maps to a value contributes it |
| Seqs.FilterIsSubsequence | sales_dashboard.py:399 | a boolean-mask selection keeps the input's order |
| Ingest.FilesInRangeSpec | sales_dashboard.py:342-352 | the kept files are a subsequence of the listing; a file is kept iff its name has a date within the given bounds; undated files are dropped |
| Ingest.FileRows | sales_dashboard.py:369-378 | a readable file contributes one row per table row, in order; each carries the file-name date as `FileDate`, and as `Date` the row's `Saledate` when the table has that column, else the file-name date; cells of columns the file lacks are empty |
| Ingest.SaleDateColumnDates | sales_dashboard.py:373-374 | with a `Saledate` column, every record is dated by the `Saledate` of the row it was built from, and every described non-`Ignore` row yields a record with that date and its cleaned name |
| Ingest.CollectRows | sales_dashboard.py:358-384 | the loop gathers the rows of every readable file in order, counts the tables read, and collects the union of their columns as `pd.concat` does |
| Ingest.CombinedColumnsSpec | sales_dashboard.py:392 | a column is in the combined table iff some file that was read has it |
| Ingest.FirstMissing | sales_dashboard.py:393-400 | no missing column iff all four read columns are present; otherwise the first missing one in reading order (Description, ExtendedNetAmount, Quantity, Hour_ID), every earlier one being present |
| Ingest.CombineNeedsColumns | sales_dashboard.py:392-400 | the cleaning succeeds iff each read column is in some file that was read; a failure is a `KeyError` on a column that no file read has |
| Ingest.NoDescriptionRaises | sales_dashboard.py:393 | when no file read has a `Description` column, the load raises `KeyError('Description')` |
| Ingest.TruncateToInt | sales_dashboard.py:400 | `astype(int)` truncates toward zero |
| Ingest.BuildRecord | sales_dashboard.py:394-400 | a row gives a record iff it has a description whose cleaned name is not `Ignore`; the record holds the cleaned name, its category, the row's dates, 0 for a non-numeric amount or quantity, and the truncated hour or 0 |
| Ingest.CleanRows | sales_dashboard.py:392-400 | a record is kept iff some row builds it: every record comes from a row through `BuildRecord`, every row that builds a record contributes it, none is `Ignore`, and there are no more records than rows |
| Ingest.CleanRowsAppend | sales_dashboard.py:393-400 | cleaning the concatenation equals concatenating the cleaned parts |
| Ingest.ProcessDriveFiles | sales_dashboard.py:332-410 | the method returns `Load`: "no files in folder", "no files in range", "could not process any files", the `KeyError` of a missing column, or the cleaned records |
| Ingest.ProcessUploads | sales_dashboard.py:412-453 | uploads are all read; nothing readable gives no records, a missing column gives its `KeyError`, and otherwise the result is the cleaned rows of the readable files |
| Ingest.NothingReadableNoRows | sales_dashboard.py:389-390 | files none of which can be read contribute no rows |
| Ingest.CleanRowsKeepDates | sales_dashboard.py:392-400 | a property of every row's dates holds of every record |
| Ingest.AllRowsFileDates | sales_dashboard.py:369-371 | every row carries the date of its file's name |
| Ingest.LoadRespectsRange | sales_dashboard.py:342-352 | with a bound given, every loaded record's file date lies within the bounds |
| Ingest.InRangeRecords | sales_dashboard.py:342-352 | the records cleaned from the in-range files all carry a file date within the bounds |
| Ingest.FileDateFallback | sales_dashboard.py:375-376 | without a `Saledate` column every record is dated by its file name |
| Ingest.DailyExportDates | sales_dashboard.py:375-376 | every record of `sales_20240601.xlsx` without `Saledate` is dated 1 June 2024 |
| Aggregation.KeyIndex | sales_dashboard.py:669-672 | a grouping has a key iff some row carries it |
| Aggregation.AmountForAppend | sales_dashboard.py:669-672 | a new row adds its amount to its own key only |
| Aggregation.AbsentKeyIsZero | sales_dashboard.py:1958 | a key missing from a grouping sums to 0, as `reindex(fill_value=0)` gives |
| Aggregation.DistinctAmountFor | sales_dashboard.py:1873-1874 | in a grouping with distinct keys a key's row holds that key's sum |
| Aggregation.AddTo | sales_dashboard.py:669-672 | adding a row keeps keys distinct, adds its key, adds its amount to that key and to the total |
| Aggregation.GroupSum | sales_dashboard.py:669-672 | the grouping has one row per distinct key, with the same keys and the same per-key sums as the rows |
| Aggregation.GroupRowIsSum | sales_dashboard.py:737-740 | each group row holds the sum of its key's rows |
| Aggregation.GroupSumConserves | sales_dashboard.py:669-672 | grouping preserves total revenue and total quantity |
| Aggregation.SameKeyPair | sales_dashboard.py:669-672 | two rows with one key make one group holding their sum |
| Aggregation.GroupingAddsUp | sales_dashboard.py:1873-1874 | the groups of any key add up to the period's total |
| Aggregation.KeyedTotal | sales_dashboard.py:1344-1345 | keying records does not change the total |
| Aggregation.AveragePrice | sales_dashboard.py:630 | with quantity `> 0` the price times the quantity is the revenue; otherwise the price is 0 |
| Aggregation.ApplyFiltersSelects | sales_dashboard.py:615-619 | a record is kept iff it matches the selected category and the selected product |
| Aggregation.ApplyFiltersKeepsOrder | sales_dashboard.py:615-619 | filtering keeps the records' order |
| Aggregation.NoFilterKeepsAll | sales_dashboard.py:615 | with "All Categories" and "All Products" nothing is removed |
| Sorting.InsertBy | sales_dashboard.py:1973 | inserting into a descending list keeps it descending and adds exactly the new element |
| Sorting.SortBy | sales_dashboard.py:1973 | `sort_values(ascending=False)` returns a descending permutation of its input |
| Sorting.SortKeepsDistinct | sales_dashboard.py:1973 | sorting keeps keys distinct |
| Sorting.SumByPermutation | sales_dashboard.py:989 | a sum does not depend on the order of its terms |
| Ranking.Largest | sales_dashboard.py:988 | `nlargest(n)` has `min(n, #keys)` entries, descending, drawn from the input |
| Ranking.LargestSplit | sales_dashboard.py:988-989 | the top-n and the rest split the sorted input, and every kept value is at least every dropped one |
| Ranking.LargestDominates | sales_dashboard.py:988-989 | every top-n value is at least the value of any dropped key |
| Ranking.OthersIsTheRest | sales_dashboard.py:989 | "Others" equals the total minus the top-6 sum |
| Ranking.OthersAreRestOf | sales_dashboard.py:989 | "Others" is the revenue of exactly the products ranked after the top 6 |
| Ranking.RestIsDropped | sales_dashboard.py:989 | every product after the top 6 is outside the top-6 index, so `~isin` selects it |
| Ranking.PieDataSpec | sales_dashboard.py:985-993 | the donut shows the top `min(6, #keys)` products with their revenue, then "Others" only when the rest is `> 0` |
| Ranking.RankOf | sales_dashboard.py:1690-1691 | a product's rank is its 1-based position, the last one when it is listed twice |
| Ranking.RankIsPosition | sales_dashboard.py:1690-1691 | in a list without repeats the rank is the position plus one |
| Ranking.MovementOf | sales_dashboard.py:1694-1704 | NEW iff absent from period 1's top-10; up, down or unchanged by `rank1 - rank2` otherwise |
| Ranking.MovementLabelInjective | sales_dashboard.py:1697-1704 | different movements are shown with different texts |
| Ranking.SameListNoMovement | sales_dashboard.py:1694-1702 | comparing a top-10 with itself shows no movement |
| Ranking.RankChanges | sales_dashboard.py:1693-1704 | the loop labels exactly the products of period 2's top-10, each with the text of its movement |
| Buckets.ModeFor | sales_dashboard.py:576-581 | Daily iff the span is 1 day; Weekly iff 2–14 days; Monthly iff 15 days or more |
| Buckets.RecordDates | sales_dashboard.py:540-541 | the dates `min`/`max` range over are exactly those of the dated records |
| Buckets.Earliest | sales_dashboard.py:540 | the earliest date is one of the dates and not after any of them |
| Buckets.Latest | sales_dashboard.py:541 | the latest date is one of the dates and not before any of them |
| Buckets.DaySpan | sales_dashboard.py:542 | every date lies within `span` days from the earliest, and some date lies exactly `span - 1` days after it, so `span` is `(max - min).days + 1` |
| Buckets.DailyExactlyWhenOneDay | sales_dashboard.py:542-577 | Daily mode is chosen iff all dates are the same day |
| Buckets.WeekOfMonth | sales_dashboard.py:1064 | week `w` covers days `7(w-1)+1` to `7w`, so days 1–31 fall in weeks 1–5 |
| Buckets.DatesUnder | sales_dashboard.py:1068-1071 | a bucket's dates are exactly the dated records whose key is that bucket |
| Buckets.KeyHasDates | sales_dashboard.py:1068-1071 | every bucket has at least one date, so its min and max exist |
| Buckets.WeekLabels | sales_dashboard.py:1075-1082 | the loop gives one label per bucket, in bucket order, built from the bucket's first and last date |
| Buckets.BucketDaysInWindow | sales_dashboard.py:1064-1068 | all dates of a month-week bucket fall in that week's seven days of that month |
| Buckets.TwoRecordsOneBucket | sales_dashboard.py:1068-1072 | two dated records with one key form a single bucket holding their summed amounts |
| Buckets.MergedYearsLabel | sales_dashboard.py:1068-1080 | 6 Dec 2023 and 2 Dec 2024 share one bucket, labelled "Dec 6-2" |
| Buckets.LabelIsRange | sales_dashboard.py:1075-1080 | with the year in the key, a bucket's first day is not after its last and both lie in the bucket's week |
| Weeks.WeekYearLabelInjective | sales_dashboard.py:406 | different (year, week) pairs give different `WeekYear` texts |
| Weeks.Weekday | sales_dashboard.py:403 | the weekday is in 0..6 |
| Weeks.ThursdayOf | sales_dashboard.py:403 | a day's ISO week is named by a Thursday within three days of it |
| Weeks.IsoYear | sales_dashboard.py:403 | the ISO year is the year holding the week's Thursday, within one of the calendar year |
| Weeks.IsoWeek | sales_dashboard.py:403 | the ISO week number is in 1..53 |
| Weeks.IsoWeekYearIdentifiesWeek | sales_dashboard.py:403-406 | two days get the same ISO label iff they are in the same Monday-to-Sunday week |
| Weeks.WrittenDiffersOnlyAtYearEnds | sales_dashboard.py:405-406 | the written label differs from the ISO label only for 1–3 January and 29–31 December |
| Weeks.YearEndIsoWeeks | sales_dashboard.py:403 | in a leap year starting on a Monday, 1 January is ISO week 1 of that year and 30 December ISO week 1 of the next |
| Weeks.DaysBeforeYearClosed | sales_dashboard.py:403 | the days before a year follow the Gregorian 4/100/400 leap rule in closed form |
| Weeks.YearEndCollision | sales_dashboard.py:405-406 | in a leap year starting on a Monday, 1 January and 30 December both get `y-W01`, while their ISO labels differ |
| Weeks.LeapYearOnMonday | sales_dashboard.py:405-406 | 2024 is such a year |
| Comparison.PercentChange | sales_dashboard.py:1344-1352 | with a positive base the percentage takes the base to the new total and has the sign of the change; otherwise it is 0 |
| Comparison.ChangePct | sales_dashboard.py:1972 | with a non-zero base the percentage takes the base to the new value; a zero base shows 100 for any change, either sign; no change shows 0 |
| Comparison.HeaderVersusTable | sales_dashboard.py:1347 | the header percentage and the table's Change % (line 1972) agree for a positive base; a key new in period 2 gets 0% in the header and 100% in the table |
| Comparison.ChangeTable | sales_dashboard.py:1955-1973 | the method builds the joined table in the loop and sorts it by Change %; with distinct keys, every key of either period appears once with both revenues |
| Comparison.FirstPeriodKeys | sales_dashboard.py:1955-1959 | the starting frame lists exactly period 1's keys |
| Comparison.AddMissingKeys | sales_dashboard.py:1962-1969 | the loop keeps every listed key and adds every key of period 2 |
| Comparison.JoinedKeys | sales_dashboard.py:1955-1969 | the table lists a key iff it is in period 1 or period 2 |
| Comparison.AddMissingDistinct | sales_dashboard.py:1962-1969 | the loop never lists a key twice |
| Comparison.JoinedDistinct | sales_dashboard.py:1955-1969 | with distinct period-1 keys, every key is in the table once |
| Comparison.JoinedValues | sales_dashboard.py:1955-1969 | each row holds its key's revenue in each period, 0 where the key did not sell |
| Comparison.ChangeTableSpec | sales_dashboard.py:2092-2110 | the sorted table: descending Change %, each key once, both revenues with 0 for a missing side, and Change $ = after − before |
| Comparison.SameKeysListed | sales_dashboard.py:1973 | reordering rows does not change which keys are listed |
| Comparison.FirstPeriodBefore | sales_dashboard.py:1955-1959 | the first-period column of the starting frame adds up to period 1's total |
| Comparison.AddMissingBefore | sales_dashboard.py:1962-1969 | rows the loop appends hold 0 for period 1, so that column's sum is unchanged |
| Comparison.FirstPeriodAfterStep | sales_dashboard.py:1958 | the reindexed period-2 column grows by a period-2 row's revenue exactly when its key is one of period 1's |
| Comparison.AddMissingAfter | sales_dashboard.py:1962-1969 | the loop adds to the period-2 column exactly the revenue of keys absent from period 1 |
| Comparison.SecondPeriodSplit | sales_dashboard.py:1955-1969 | matched and newly added period-2 revenue together make period 2's total |
| Comparison.ChangeColumnAddsUp | sales_dashboard.py:1971-1973 | the Change $ column adds up to period 2's total minus period 1's |
| Comparison.TableMatchesHeader | sales_dashboard.py:1344-1346 | for change tables grouped from two periods' records by any key (lines 1873-1874), the Change $ column adds up to the header's revenue change |

## Left out

- Google Drive authentication, listing and downloading (sales_dashboard.py:211-277). These are network I/O. A file that cannot be downloaded or read is a `SourceFile` whose `table` is `None`.
- Excel and CSV parsing (`pd.read_excel` / `pd.read_csv`, :368, :421-424). Each file is given as an already-parsed table. A `Saledate` cell is a `Date` or none. A `Saledate` column that `pd.to_datetime` cannot parse raises an exception, and that skips the whole file. The model does not represent it.
- `pd.to_numeric(errors='coerce')` is taken as given. Each numeric cell arrives as a number or `None`.
- Streamlit layout, CSS, session state, buttons and every Plotly figure (:15-206, :465-575 and most of :583-2357).
- The business-hours filter on the hourly chart (:675) is chart preparation and is not part of this model.
- Date-picker presets based on the wall clock (:1241-1258, :2136-2175).
- `day_name`, `strftime('%Y-%m')` and the `MonthYear` / `DayName` columns (:407-408).
- Display rounding, the `:,.2f` formats and the unguarded division at :1167. Money is exact `real`, not floating point.
- The undefined `TMB_SALES_FOLDER_ID` (:490) is a configuration error, not logic.
- Group order. pandas `groupby` returns its groups sorted by key. `Aggregation.GroupSum` keeps them in first-appearance order. No property here depends on group order; the sorts that consume groups are specified only up to ties. The alphabetical order pandas gives the `MonthName` strings of the week chart is not modelled.
- Tie order of `sort_values` / `nlargest`. `Sorting.SortBy` is one particular stable insertion sort. Every property is stated through `SortedBy` and multiset equality, so it holds for any tie order.
- Weeks.WrittenWeekYear: models the label of a load in which every row is dated. When any combined row has no date, `dt.year` is a float column, so pandas writes every label as `"2024.0-W05"` and the undated rows as `"nan-W<NA>"` (:403-406). The model always writes the year as an integer and gives undated rows no label. The column is not read anywhere else in the file.
- Upper-casing and whitespace cover ASCII letters and Python's `isspace` set. `\d` is taken as ASCII digits. Unicode case mappings and non-ASCII digits are not modelled.
- `Buckets.DaySpan` requires at least one dated record. With none, `min()` is `NaT` and the app fails at :552 before the span is used.
- The ISO week number that pandas' `isocalendar()` returns is computed in `Weeks` from the day number, not taken from a library.
- The change table's `pd.DataFrame` construction, `concat`, `set_index` and column names are modelled as a list of `ChangeRow`s.
- Units in the header (:1349-1352) use the same `PercentChange` on quantities. It is not restated separately.

## Findings

| source | as written | input that shows it | evidently intended | confidence | as-written member | corrected member |
|---|---|---|---|---|---|---|
| sales_dashboard.py:1068 | the monthly week chart groups by month name and week number only | records dated 2023-12-06 and 2024-12-02 fall into one bucket labelled "Dec 6-2" | the week of a month of a given year, so a label runs from its first to its last day | not executed | Buckets.MergedYearsLabel | Buckets.LabelIsRange |
| sales_dashboard.py:405-406 | `WeekYear` joins the calendar year to the ISO week number | 2024-01-01 and 2024-12-30 are both labelled "2024-W01", but 2024-12-30 is in ISO week 1 of 2025 | the ISO week-numbering year, so one label means one week | not executed; the column is not read elsewhere in the file | Weeks.YearEndCollision | Weeks.IsoWeekYearIdentifiesWeek |
