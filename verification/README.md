# Fuel tracking: a verified model of the data core

Fuel-Tracking logs fuel purchases (date, distance driven since the last
fill, litres filled, total cost, optionally the petrol type) in a CSV file,
derives three ratios per fill, answers windowed statistics queries (sum,
average, most frequent petrol type, optionally per calendar month) and
prepares daily series for three charts.

This project models in Dafny the three parts of the Python package that
carry the logic:

- `load_data` after the CSV has been read (module `Loader`): the
  required-column check, the sort by date and the three derived columns
  `PetrolPrice(PerLitre)`, `Kilometrage(L/100km)` and `CostPerKilometre`;
- `numeric_statistics` with `_coerce_dates` (module `Statistics`): the
  inclusive date window with defaulted bounds, the case-insensitive choice
  of function, monthly grouping, sums, means, the mean time between entries
  and the modes;
- the data preparation of `data_visualisations` (module `Charts`): days
  since the previous entry (7 by default), cost and distance normalised by
  that gap, daily resampling by summation, and the replacement of zero days
  by the next non-zero day.

Shared pieces: `Values` (a nullable cell `Option`, `Result`, division that
yields a missing cell), `Entries` (the row type, date order with NaT last,
the sort, the earliest and latest date) and `Tally` (sums that skip missing
cells, the mean over present values, and the law that summing per key over
distinct keys adds up to the total, used both for monthly groups and for
daily buckets).

A table is a sequence of `Entry` values. A date is `None` when it failed to
parse (NaT) and otherwise carries its time in seconds and its calendar
year-month. A numeric cell is `None` when it is missing (NaN). Sums count a
missing cell as zero; means and modes skip it. The errors the code raises
are values of `Entries.Error`: `MissingColumns` (the loader's ValueError
listing the absent columns), `InvalidFunction` (the engine's ValueError)
and `ColumnNotFound("PetrolType")` (the KeyError of a mode query on a table
without that column).

## Model

| member | source | states |
|---|---|---|
| Values.Div | src/fuel_tracking/io.py:51 | a quotient cell is present exactly when both operands are present and the divisor is non-zero, and then it times the divisor gives the dividend |
| Loader.AbsentFrom | src/fuel_tracking/io.py:32 | a column is reported exactly when it is listed and absent from the header, and the report keeps the order of the list |
| Loader.MissingRequired | src/fuel_tracking/io.py:8-13 | the reported columns are exactly those of Date, Distance, PetrolFilled(Litres), TotalCost that the header lacks, in that order |
| Loader.LoadData | src/fuel_tracking/io.py:32-44 | loading fails exactly when some required column is absent, with the list of absent ones; otherwise the rows are a date-sorted permutation of the parsed rows, none dropped, and the table records whether PetrolType exists |
| Loader.Attach | src/fuel_tracking/io.py:51-53 | each ratio is present exactly when its operands are and its divisor is non-zero; price times litres is the cost, litres per 100 km times distance is 100 times the litres, cost per km times distance is the cost; parsed cells are kept |
| Loader.PerHundred | src/fuel_tracking/io.py:52 | litres per 100 km times the distance is a hundred times the litres |
| Loader.RatioIdentity | src/fuel_tracking/io.py:51-53 | with all operands present and non-zero, cost per km equals price per litre times litres per 100 km over 100 |
| Entries.SortByDate | src/fuel_tracking/io.py:44 | the result is in date order with NaT rows last, and is a permutation of the input |
| Entries.EarliestDate | src/fuel_tracking/stats.py:12 | the minimum is absent exactly when no row is dated, is the date of some row, and is no later than any dated row |
| Entries.LatestDate | src/fuel_tracking/stats.py:13 | the maximum is absent exactly when no row is dated, is the date of some row, and is no earlier than any dated row |
| Statistics.Lower | src/fuel_tracking/stats.py:28 | lower-casing keeps the length, turns each capital A-Z into the letter 32 code points above it, keeps every other character, and leaves no capital |
| Statistics.LowerIdempotent | src/fuel_tracking/stats.py:28 | lower-casing twice is lower-casing once |
| Statistics.ParseFunction | src/fuel_tracking/stats.py:40-68 | the name selects sum, average or mode exactly when its lower-case form is that word, and is InvalidFunction otherwise |
| Statistics.ParseIgnoresCase | src/fuel_tracking/stats.py:28 | the choice of function depends only on the lower-case form of the name |
| Statistics.ParseExamples | src/fuel_tracking/stats.py:68 | SUM, Average and mOdE are accepted; median and the empty name are rejected |
| Statistics.CoerceDates | src/fuel_tracking/stats.py:11-14 | a given bound is kept; an omitted start is the earliest and an omitted end the latest dated row, absent exactly when no row is dated |
| Statistics.Select | src/fuel_tracking/stats.py:31 | a row is selected, with all its copies, exactly when it is dated and lies between the bounds inclusive; selected rows keep table order |
| Statistics.SelectKeepsOrder | src/fuel_tracking/stats.py:31 | a selection from a date-sorted table is date-sorted |
| Statistics.SelectEnclosing | src/fuel_tracking/stats.py:31 | a window enclosing every dated row selects exactly the dated rows |
| Statistics.NoBoundsSelectsEveryDatedEntry | src/fuel_tracking/stats.py:30-31 | with both bounds omitted every dated row is selected and no NaT row is |
| Statistics.EnclosingWindowSelectsAll | src/fuel_tracking/stats.py:30-31 | explicit bounds enclosing the whole date range select what omitted bounds select |
| Statistics.EnclosingWindowSameResult | src/fuel_tracking/stats.py:30-31 | such bounds give the same statistics result as omitted bounds, for every function and grouping |
| Tally.SumCellsSkipsMissing | src/fuel_tracking/stats.py:41 | a column sum with missing cells as zero equals the sum of the present values; the count of present cells is their number |
| Statistics.SumColumns | src/fuel_tracking/stats.py:40-41 | each of the three totals is the sum of that column's present values; an empty window gives zeros |
| Tally.MeanPresent | src/fuel_tracking/stats.py:53 | the mean is absent exactly when no value is present, and otherwise is the sum of the present values over their number |
| Statistics.MeanOverPresentValues | src/fuel_tracking/stats.py:43-53 | each averaged column of a selection is the mean over its present values, absent when none is present |
| Statistics.Steps | src/fuel_tracking/stats.py:57 | one difference per consecutive pair, each the later time minus the earlier |
| Statistics.Telescope | src/fuel_tracking/stats.py:57 | the consecutive differences add up to the last time minus the first, and there are one fewer of them than times |
| Statistics.DiffTelescopes | src/fuel_tracking/stats.py:57 | the mean of the differences, first one missing, is the overall span over the number of gaps |
| Statistics.MeanGap | src/fuel_tracking/stats.py:55-60 | the mean gap is NaT exactly for at most one entry, otherwise equals the span from first to last over the number of gaps, and is not negative on date-sorted rows |
| Statistics.AverageStats | src/fuel_tracking/stats.py:43-61 | average gives per-month means exactly when grouping, and outside grouping its mean gap is NaT exactly when at most one row is selected |
| Statistics.AverageDispatch | src/fuel_tracking/stats.py:43-61 | ungrouped average returns the selection's column means with its mean gap |
| Statistics.AverageGapTelescopes | src/fuel_tracking/stats.py:55-60 | for an ungrouped average query the mean gap is NaT exactly when at most one row is selected, else is the telescoped span over the gap count, non-negative on a date-sorted table |
| Statistics.SingleEntryAverage | src/fuel_tracking/stats.py:55-60 | with a single row selected the mean gap is NaT and each mean is that row's own value |
| Statistics.PetrolTypes | src/fuel_tracking/stats.py:66 | a type is listed exactly when some row carries it; missing types are dropped |
| Statistics.PetrolTypesCounts | src/fuel_tracking/stats.py:66 | each type is listed as many times as rows carry it, so the counts the mode is taken from are per-row counts |
| Statistics.MostFrequent | src/fuel_tracking/stats.py:63-66 | a value is a mode exactly when it occurs and no value occurs more often; ties are all kept; there is a mode exactly when some value occurs |
| Statistics.ModesAreMostFrequent | src/fuel_tracking/stats.py:63-66 | an ungrouped mode query on a table with PetrolType returns exactly the most frequent petrol types of the window |
| Statistics.MonthlyModesPerMonth | src/fuel_tracking/stats.py:64-65 | a grouped mode query gives, for each month of the window, exactly the most frequent petrol types of that month |
| Tally.DistinctKeys | src/fuel_tracking/stats.py:38 | the group keys are distinct and are exactly the keys that occur |
| Tally.PartitionTotal | src/fuel_tracking/stats.py:38 | summing per key over distinct keys counts every value once, in the group of its own key |
| Statistics.Months | src/fuel_tracking/stats.py:38 | the month keys are distinct and are exactly the months of the dated rows |
| Statistics.Group | src/fuel_tracking/stats.py:38 | a month's group holds exactly the dated rows of that month, with all their copies |
| Statistics.MonthlyGroupsPartition | src/fuel_tracking/stats.py:38 | no group is empty, every dated row has its month among the keys, and each row lies in its own month's group and no other |
| Statistics.MonthlySums | src/fuel_tracking/stats.py:37-41 | one entry per month key, each that month's group totals |
| Statistics.MonthlyTotalsAddUp | src/fuel_tracking/stats.py:37-41 | the per-month totals of a column add up to the total of the whole selection |
| Statistics.MonthlySumsAddUp | src/fuel_tracking/stats.py:37-41 | a grouped sum query's month totals add up to the ungrouped sum query's total, column by column, for the same window |
| Statistics.MonthlyAveragesPerMonth | src/fuel_tracking/stats.py:37-53 | a grouped average query gives, for each month of the window, each column's mean over that month's present values |
| Statistics.ModeStats | src/fuel_tracking/stats.py:63-66 | mode gives per-month modes exactly when grouping |
| Statistics.Aggregate | src/fuel_tracking/stats.py:37-68 | a mode query fails with the missing PetrolType column exactly when the table lacks it; the result's shape matches the function and the grouping; a sum gives the column totals of the selection, or with grouping the per-month totals |
| Statistics.NumericStatistics | src/fuel_tracking/stats.py:17-68 | the query fails with InvalidFunction exactly when the lower-cased name is not sum, average or mode, with the missing PetrolType exactly for a mode query without that column, and otherwise the result's shape matches the function and the grouping; a sum query returns the column totals of the window, or with grouping one record of totals per month of the window |
| Charts.DaysSinceLastEntry | src/fuel_tracking/viz.py:17 | one gap per row: 7 for the first row and next to a NaT, otherwise the whole days between the row and the previous one (floor of the time difference) |
| Charts.SortedGapsNonNegative | src/fuel_tracking/viz.py:16-17 | on date-sorted rows no gap is negative |
| Charts.NormaliseRow | src/fuel_tracking/viz.py:19-20 | normalised cost and distance times the gap give back the cost and distance, present exactly when the original is and the gap is non-zero; day and L/100 km are kept |
| Charts.NormalisedRowGap | src/fuel_tracking/viz.py:19-20 | a normalised row keeps its day and kilometrage; the first row and a row next to a NaT have cost and distance spread over 7 days; a row on the same day as its predecessor has no normalised cost or distance |
| Charts.Resample | src/fuel_tracking/viz.py:22 | the daily grid is absent exactly when no row is dated, otherwise it runs from the first to the last dated day with one bucket per day for each series |
| Charts.ResampleBuckets | src/fuel_tracking/viz.py:22 | each daily bucket is the sum of that day's values, missing values and days without entries counting as zero |
| Charts.ResampleKeepsTotal | src/fuel_tracking/viz.py:22 | the daily buckets add up to the sum over all dated rows |
| Charts.ZeroToMissing | src/fuel_tracking/viz.py:26 | a cell is missing afterwards exactly when it was missing or zero before, and a present cell is unchanged |
| Charts.BackFill | src/fuel_tracking/viz.py:26 | every cell becomes the nearest present value at or after it, missing when there is none |
| Charts.NextPresentWitness | src/fuel_tracking/viz.py:26 | a filled value sits at a later position with only missing cells in between; no value means only missing cells follow |
| Charts.FillGapsCells | src/fuel_tracking/viz.py:24-26 | a non-zero value is kept; a zero or missing cell takes the nearest later non-zero value, or stays missing exactly when only zero or missing cells follow |
| Charts.FillGapsKeepsNonZero | src/fuel_tracking/viz.py:26 | a present non-zero cell is unchanged by filling |
| Charts.FillGapsHasNoZero | src/fuel_tracking/viz.py:24-26 | no cell holds zero after filling |
| Charts.BackFillIdempotent | src/fuel_tracking/viz.py:26 | back-filling twice is back-filling once |
| Charts.FillGapsIdempotent | src/fuel_tracking/viz.py:24-26 | filling a filled series again changes nothing |
| Charts.PermutationKeepsUndated | src/fuel_tracking/viz.py:16 | reordering rows keeps whether any row is dated |
| Charts.DataVisualisations | src/fuel_tracking/viz.py:16-26 | chart data is absent exactly when no row is dated; otherwise the three series have the same positive length and hold no zero |
| Charts.ChartKeepsNonZeroDays | src/fuel_tracking/viz.py:22-26 | when some row is dated there is a chart and a daily grid; the chart starts on the grid's first day, each series is the grid's series with zero days back-filled, and every non-zero daily bucket is shown unchanged |
| Charts.FilledGridZeroDays | src/fuel_tracking/viz.py:26 | a day of the filled grid shows the next non-zero bucket from that day on, with only zero buckets between, and is missing exactly when every later bucket is zero |

## Left out

- Reading the CSV and parsing cells (src/fuel_tracking/io.py:26-30, 41-43 and 47-48): rows arrive already parsed, a cell that failed to parse being missing; the `dayfirst` and `date_format` options are not modelled, and the FileNotFoundError of a missing file is not modelled.
- Loader.Attach: a zero divisor gives a missing ratio. The code's float division gives plus or minus infinity for a non-zero dividend and NaN for 0/0, and an infinity is not skipped by later sums and means; IEEE infinities are not modelled.
- Charts.NormaliseRow: a gap of 0 days (two fills on the same day) gives missing normalised values, where the code's division gives an infinity; same reason.
- Statistics.MeanGap: the value is exact real seconds; the conversion of the mean to a nanosecond Timedelta, with its rounding, is not modelled.
- Statistics.Months: the month keys are listed in order of first appearance; pandas lists groups in sorted period order. The two coincide on a date-sorted table, which is what the loader produces, but the model does not prove that.
- Statistics.MostFrequent: the modes are a set; pandas returns them as a sorted column, and the grouped form's exact container shape is not modelled.
- Statistics.Lower: lower-casing covers ASCII letters only; full Unicode case mapping is not modelled.
- Statistics.CoerceDates: bounds are given as already parsed times; parsing string bounds with `dayfirst=True` is not modelled.
- The `DaysSinceLast` column of src/fuel_tracking/stats.py:34-35 (first gap 1) is computed but is part of no result, so it is not modelled.
- Calendar arithmetic: each date carries its own year-month and its time in seconds; consistency between the two is not enforced, and the day of a time is its seconds divided by 86400, rounded down (UTC days, no time zones).
- Charts.Resample: rows whose date is NaT fall into no daily bucket.
- Entries.SortByDate: the order among rows with equal dates is not specified, as for pandas' default sort.
- Timestamps are unbounded integers; the 64-bit nanosecond range of pandas timestamps is not modelled.
- Drawing and saving the three figures and returning their paths (src/fuel_tracking/viz.py:10-14 and 28-58), the report (src/fuel_tracking/report.py), the command line (src/fuel_tracking/cli.py) and the package exports are not part of this model.
- Statistics.Aggregate: its own contract gives the values of a sum only; the values of averages and modes are stated by the dispatch lemmas named on the next line.
- Statistics.NumericStatistics: its own contract gives the values of a sum query only; the values of average and mode queries are stated by Statistics.AverageDispatch, Statistics.MonthlyAveragesPerMonth, Statistics.ModesAreMostFrequent and Statistics.MonthlyModesPerMonth.
- Charts.DataVisualisations: when no row is dated the model yields no chart data. The code instead plots three empty charts for an empty table, and for a table whose dates are all NaT its resampling has no first day to anchor on; neither outcome is modelled.
- Floating point: all arithmetic is on exact reals, with no float64 rounding. Identities such as Loader.RatioIdentity, Loader.PerHundred, Values.Div and the sum and mean lemmas hold exactly in the model, but only up to rounding in the code.
- Copies before mutation (`copy()`): the model is purely functional, so the caller's table is never changed.
