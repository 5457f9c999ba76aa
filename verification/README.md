# AgriSense data core, modelled in Dafny

AgriSense turns raw Indian mandi (wholesale market) commodity prices into
analytics. This project models its data core:

- the cleaning stage (`clean_commodity_data`): drop incomplete rows, coerce
  prices to numbers, reject outliers by Tukey's interquartile rule, normalise
  the `state` and `commodity` labels;
- the feature stage (`create_features`): sort by commodity and date, then per
  commodity the 7- and 30-row trailing means, the percent change, the 30-row
  volatility, the calendar fields, the deviations from the means and the
  Rising / Falling / Stable label;
- the insight report (`generate_insights`): the top commodities by mean price,
  by mean volatility and by mean recent change, and the top states by mean price;
- the dashboard's data logic: the load filter and sort, the per-state ranking
  behind the state chart, and the seven-day least-squares forecast
  (`update_prediction`).

A table is a `seq` of row datatypes. A date is a day number counted from
1970-01-01, and a missing or unparsable date (NaT) is `None`. Prices are exact
reals. Each stage is a pure function. Its contract states what the stage
guarantees, and lemmas connect it to an independent description: a
subsequence of the input, a stable sort, a group transform, a least-squares
optimum.

Modules:

- `Wrappers`, `Seqs`: Option and small sequence helpers.
- `Text`: `str.strip` and `str.title`.
- `Sorting`: a stable sort over a total preorder.
- `Records`: row types and the (commodity, date) order.
- `Stats`: sums, means, sample variance and pandas' linear-interpolation quantile.
- `Calendar`: day numbers to and from dates.
- `Cleaner`, `Features`, `Ranking`, `Insights`: the pipeline.
- `Regression`: `np.polyfit(..., 1)`.
- `Dashboard`: the dashboard callbacks.

## Model

| member | source | states |
|---|---|---|
| Cleaner.DropMissing | scripts/data_pipeline.py:81 | keeps exactly the rows with commodity, market and price present, in input order (a subsequence) |
| Cleaner.DropMissingCounts | scripts/data_pipeline.py:81 | a complete row is kept as often as it occurs in the input, an incomplete one never; with the subsequence clause this fixes the result |
| Cleaner.CoercePrices | scripts/data_pipeline.py:85-89 | every complete row whose modal price is numeric reaches the typed table, and nothing longer than the input comes out |
| Cleaner.Fences | scripts/data_pipeline.py:92-96 | the step runs (an interval is returned) exactly when the table is non-empty and Q3 - Q1 > 0; the interval then strictly encloses [Q1, Q3] |
| Cleaner.InterquartileRangeNonNegative | scripts/data_pipeline.py:92-94 | Q3 is never below Q1, so a failing `IQR > 0` test means an IQR of zero |
| Cleaner.RejectOutliers | scripts/data_pipeline.py:92-98 | the result is a subsequence; it is the whole table when the step is skipped, otherwise exactly the records priced inside [Q1 - 1.5 IQR, Q3 + 1.5 IQR] |
| Cleaner.RejectOutliersCounts | scripts/data_pipeline.py:92-98 | a record inside the fences in force (any record, when the step is skipped) is kept as often as it occurs; a record outside them is dropped |
| Cleaner.NormalizeRecord | scripts/data_pipeline.py:102-103 | market, date and price are untouched; commodity and state are the title-casing of the stripped input labels, a missing state stays missing, and both come out as fixed points of the normalisation |
| Cleaner.Clean | scripts/data_pipeline.py:71-109 | the cleaned table is no longer than the input, every label is normalised, and every price lies inside the fences in force |
| Cleaner.CleanIsTidiedSubsequence | scripts/data_pipeline.py:79-103 | the cleaned table is, row for row, the tidied image of the subsequence of input rows that are complete, numerically priced and inside the fences; no row is added or reordered |
| Cleaner.KeptRowsCounts | scripts/data_pipeline.py:79-98 | the one-pass filter keeps each complete, numerically priced row inside the fences as often as it occurs, and no other row |
| Cleaner.StagesAsOnePass | scripts/data_pipeline.py:79-103 | running the stages one after another equals one filtering pass followed by tidying |
| Cleaner.SpikeAmongEqualPricesIsKept | scripts/data_pipeline.py:92-98 | on prices 10, 10, 10, 10, 1000 both quartiles are 10, the IQR is 0 and nothing is removed |
| Cleaner.FirstPassDropsTheSpike | scripts/data_pipeline.py:92-98 | on prices 10, 10, 10, 11, 13 the fences are 8.5 and 12.5 and only the 13 is dropped |
| Cleaner.RejectOutliersNotIdempotent | scripts/data_pipeline.py:92-98 | applying the outlier step to its own output can drop more rows (10, 10, 10, 11 loses the 11) |
| Stats.QuantileBounds | scripts/data_pipeline.py:92-93 | a quantile lies between the smallest and the largest price |
| Stats.QuantileMonotone | scripts/data_pipeline.py:92-93 | the 0.25 quantile is never above the 0.75 quantile (any q1 <= q2) |
| Stats.QuantileOfAscending | scripts/data_pipeline.py:92-93 | the quantile is the linear interpolation between the two order statistics around position q (n - 1) |
| Text.Strip | scripts/data_pipeline.py:102-103 | the result is a slice of the input with no whitespace at either end, and everything cut off is whitespace |
| Text.Title | scripts/data_pipeline.py:102-103 | each character is lowered when the character before it is cased and raised otherwise; the length is kept |
| Text.NormalizeIdempotent | scripts/data_pipeline.py:102-103 | normalising a label twice gives the same label as normalising it once |
| Sorting.Sort | scripts/data_pipeline.py:122 | the result is a permutation of the input, sorted by the order whenever the order is a total preorder |
| Sorting.SortStable | scripts/data_pipeline.py:122 | rows that sort as equals keep their input order |
| Sorting.SortOfSorted | scripts/data_pipeline.py:122 | an already sorted table is left as it is |
| Records.RecordLeIsTotalPreorder | scripts/data_pipeline.py:122 | the (commodity, date) order, with NaT last, is total and transitive |
| Records.RecordEquivIsSameKey | scripts/data_pipeline.py:122 | two records sort as equals exactly when their commodity and date agree |
| Features.CreateFeatures | scripts/data_pipeline.py:115-154 | the featured table is a permutation of the input records sorted by (commodity, date), and each row carries the features of its own position |
| Features.CreateFeaturesStable | scripts/data_pipeline.py:122 | rows with the same commodity and date keep their input order |
| Features.FeaturesAtIsGroupTransform | scripts/data_pipeline.py:125-145 | a row's features are its commodity's whole price series evaluated at the row's position in that series (groupby-transform) |
| Features.SeriesFeaturesTrailing | scripts/data_pipeline.py:125-145 | features look back only: prices after a row's position do not change them |
| Features.HistoryIsSeriesPrefix | scripts/data_pipeline.py:125 | a row's history is a prefix of its commodity's series ending in the row's own price |
| Features.RollingMean | scripts/data_pipeline.py:125-130 | at a series' first row the mean is the price; positive prices give a positive mean |
| Features.Window | scripts/data_pipeline.py:126 | the rolling window at position j holds the last min(w, j + 1) prices up to and including j |
| Features.AveragesOfRow | scripts/data_pipeline.py:125-130 | the 7- and 30-row averages are the means of the row's windows and lie between each window's minimum and maximum |
| Features.PctChange | scripts/data_pipeline.py:133-134 | 0 at a series' first row; otherwise the change times the previous price is 100 times the price difference, positive iff the price rose and negative iff it fell |
| Features.PctChangeAgainstPreviousRow | scripts/data_pipeline.py:133-134 | the percent change is taken against the nearest earlier row of the same commodity, whatever rows of other commodities lie between |
| Calendar.FromDaysToDays | scripts/data_pipeline.py:137-139 | every valid calendar date is recovered from its day number |
| Calendar.Month | scripts/data_pipeline.py:137 | the month field is between 1 and 12 |
| Calendar.Quarter | scripts/data_pipeline.py:138 | the quarter is between 1 and 4 and contains the month |
| Calendar.DayOfYear | scripts/data_pipeline.py:139 | the day of year is 1 on the first of January and counts days from the start of the date's year |
| Calendar.EpochIsFirstOfJanuary1970 | scripts/data_pipeline.py:137-139 | day number 0 is 1 January 1970 |
| Features.RollingStd | scripts/data_pipeline.py:143-146 | the volatility is non-negative, 0 at a series' first row, and otherwise the square root of the window's sample variance |
| Features.FlatWindowHasNoVolatility | scripts/data_pipeline.py:143-146 | a series that has not moved has volatility 0 |
| Features.Deviation | scripts/data_pipeline.py:149-150 | the deviation times the average is 100 times the price's excess over it; positive iff above, zero iff equal |
| Features.Classify | scripts/data_pipeline.py:153-154 | Rising iff the change exceeds 2, Falling iff it is below -2, Stable iff it lies in [-2, 2] |
| Features.FirstRowOfCommodity | scripts/data_pipeline.py:125-154 | at the first row of a commodity both averages equal the price, change, volatility and deviations are 0 and the label is Stable |
| Ranking.Keys | scripts/data_pipeline.py:181 | the group keys are distinct, one per key that has a row |
| Ranking.Ranked | scripts/data_pipeline.py:181 | the group means, one per group with distinct keys, in non-increasing order |
| Ranking.Top | scripts/data_pipeline.py:181 | min(n, groups) distinct groups, each with the mean of its values, means non-increasing, and no left-out group with a mean above a listed one |
| Insights.StateObs | scripts/data_pipeline.py:193 | exactly the (state, price) pairs of rows that name a state |
| Insights.StateObsArePairs | scripts/data_pipeline.py:193 | one pair per row that names a state, in table order, so a repeated price weighs in its state's mean once per row |
| Seqs.Filter | scripts/data_pipeline.py:193 | the rows that satisfy the test, as a subsequence, each as often as in the input and nothing else |
| Insights.MaxDate | scripts/data_pipeline.py:198 | the latest date of the table, None exactly when no row has a date |
| Insights.Recent | scripts/data_pipeline.py:198 | exactly the rows dated within seven days of the latest date, in table order |
| Insights.RecentCounts | scripts/data_pipeline.py:198 | each row of the last seven days is in the recent view as often as in the table; no other row is |
| Insights.RecentBoundary | scripts/data_pipeline.py:198 | a row seven days before the latest date is recent, one eight days before is not |
| Insights.GenerateInsights | scripts/data_pipeline.py:173-202 | the four lists rank commodities by mean price and by mean volatility and states by mean price (five each), and commodities by mean recent change (three) |
| Dashboard.Present | dashboard/app.py:15-16 | a point is loaded exactly when some row has that commodity, state, date and price with date and price present |
| Dashboard.PresentCounts | dashboard/app.py:15-16 | a point is loaded as often as the row it comes from occurs in the table |
| Dashboard.Load | dashboard/app.py:15-17 | the loaded table is a permutation of the present rows, sorted by commodity and then date |
| Dashboard.PresentIsImage | dashboard/app.py:15-16 | the loaded points are those of the rows with a date and a price, one point per row, in table order |
| Dashboard.LoadStable | dashboard/app.py:17 | points with the same commodity and date keep their table order after the sort |
| Dashboard.LoadKeepsExactlyPresent | dashboard/app.py:15-17 | a point is in the loaded table iff it came from a row with a date and a price |
| Dashboard.RowsOf | dashboard/app.py:218 | the selected commodity's rows are exactly its rows of the table, in table order |
| Dashboard.RowsOfCounts | dashboard/app.py:218 | each row of the commodity is selected as often as it occurs in the table, no row of another commodity is |
| Dashboard.RowsOfSorted | dashboard/app.py:17 | in the loaded table each commodity's rows are in date order |
| Dashboard.StatePrices | dashboard/app.py:174 | exactly the (state, price) pairs of the rows that name a state |
| Dashboard.StatePricesArePairs | dashboard/app.py:174 | one pair per row that names a state, in table order, so a repeated price weighs in its state's mean once per row |
| Dashboard.StateComparison | dashboard/app.py:160-174 | no chart exactly when the table is empty or no commodity is selected; otherwise the top 12 states of that commodity by mean price, ranked as Ranking.Top ranks groups |
| Dashboard.UpdatePrediction | dashboard/app.py:211-242 | NoData iff the table is empty or nothing is selected; InsufficientData iff the commodity has fewer than 2 rows; otherwise the corrected forecast over its last min(30, rows) rows, every one from the table and of that commodity |
| Dashboard.Predict | dashboard/app.py:232-242 | the trend is the least-squares fit of the window's prices; seven non-negative predictions on consecutive days, all after every window date, read at the corrected positions |
| Dashboard.UpdatePredictionAsWritten | dashboard/app.py:211-242 | the callback with its own positions: every branch as in UpdatePrediction; in the fitted branch the same window, line and dates, each day's price is the one the corrected forecast gives the next day, and the seventh is the trend at position m + 7; the result is PredictAsWritten of its window |
| Dashboard.AsWrittenOf | dashboard/app.py:240-242 | a corrected outcome turned into the callback's: other outcomes unchanged, a forecast keeps its window, line and dates and takes the next day's price, the seventh read at position m + 7 |
| Dashboard.PredictAsWritten | dashboard/app.py:240-242 | the fitted branch with the callback's positions: same line and dates as Predict, price i equal to Predict's price i + 1, the last one read at position m + 7 |
| Dashboard.AsWrittenShift | dashboard/app.py:241-242 | the callback's points are the corrected points moved on by one position |
| Dashboard.AsWrittenOfLine | dashboard/app.py:240-242 | on prices lying on a line, the callback's price for the i-th day after the window is the line at position m + i + 1, one day beyond the day shown |
| Dashboard.MaxDate | dashboard/app.py:232 | the window's latest date: attained by a row and not exceeded by any |
| Dashboard.SortedMaxIsLast | dashboard/app.py:232 | in a date-ordered window the latest date is the last row's |
| Dashboard.Max0 | dashboard/app.py:242 | `max(0, x)`: non-negative, at least x, and equal to x or 0 |
| Dashboard.PredictionIsLeastSquares | dashboard/app.py:240 | no line has a smaller sum of squared residuals on the window's prices than the trend, and only the trend attains it |
| Dashboard.ForecastStartsAfterLastRow | dashboard/app.py:225-241 | on any table sorted by commodity and date, the first forecast is dated the day after the window's last row |
| Dashboard.LoadedForecastStartsAfterLastRow | dashboard/app.py:15-17 | on the table as loaded, the first forecast is dated the day after the window's last row |
| Dashboard.PredictStartsAfterLast | dashboard/app.py:232-241 | for a date-ordered window the first forecast is dated the day after its last row |
| Dashboard.AsWrittenPoints | dashboard/app.py:241-242 | the callback's own points: day last + i priced at position m + i, for i = 1 .. 7 |
| Dashboard.AsWrittenSkipsOneDay | dashboard/app.py:240-242 | on 100, 102, 104, 106, 108 the callback forecasts 112 for the next day, where the fitted line gives 110 |
| Dashboard.IntendedContinuesLine | dashboard/app.py:240-242 | with the corrected positions, prices on a line are forecast exactly along that line |
| Dashboard.PredictOfLine | dashboard/app.py:240-242 | the corrected forecast of a window whose prices lie on a line continues that line |
| Dashboard.IntendedExample | dashboard/app.py:240-242 | the corrected forecast of 100, 102, 104, 106, 108 starts at 110 |
| Regression.Solve | dashboard/app.py:240 | Cramer's rule: the slope times the determinant and the intercept times n satisfy the normal equations' closed form |
| Regression.NormalIffFit | dashboard/app.py:240 | a line satisfies the normal equations on the prices iff it is the fitted line |
| Regression.FitIsLeastSquares | dashboard/app.py:240 | the fitted line has the least sum of squared residuals of all lines, and is the only line attaining it |
| Regression.FitOfLine | dashboard/app.py:240 | prices lying on a line fit exactly that line |
| Regression.FitExample | dashboard/app.py:240 | prices 100, 102, 104, 106, 108 fit slope 2 and intercept 100 |

## Left out

- File I/O, CSV parsing, printing, the saved output files and the try/except blocks that turn an exception into `None` or an error figure. Tables are in-memory sequences, and a date arrives already parsed to a day number or NaT.
- Sample-data generation, the Dash layout, the figures and the commodity dropdown list (`commodities`). Each callback returns the data its figure would show.
- Floating point. Prices are exact reals, so rounding, NaN arising from arithmetic, and infinity are not modelled.
- Features.CreateFeatures: requires every price to be positive, though the source accepts any price. The source divides by the previous price and by the two averages without a guard. A non-zero amount over zero gives infinity. Zero over zero gives NaN, which the fill then turns into 0. Exact reals have neither, so every divisor must be non-zero. Negative prices are excluded too, because with mixed signs an average can be zero.
- The square root behind the volatility is a ghost function characterised by its defining property, so the feature functions are ghost.
- `week_of_year` (`isocalendar().week`): not modelled; the other three calendar fields are.
- Sort ties: pandas' descending `sort_values` of group means does not promise an order for equal means. Ranking.Top orders equal means by ascending key. Equal (commodity, date) rows keep their input order, as in a stable sort.
- The state chart's branch for a table without a `state` column is left out; the row type always has the (optional) state field.
- The forecast's "no recent data" and "insufficient price data" branches exist in the model but are unreachable. The loaded table has no missing dates or prices, and a commodity that reaches them has at least 2 rows. The contract states this.
- Cleaner.CoercePrices: states only that every usable row reaches the typed table. Exactly which rows survive is stated for the whole cleaner by Cleaner.CleanIsTidiedSubsequence.
- Dashboard.Predict: reads the trend at the corrected positions m .. m + 6 for the seven days after the window, where the callback reads m + 1 .. m + 7 (see Findings). The callback's own positions are modelled by Dashboard.PredictAsWritten.
- Dashboard.UpdatePrediction: its fitted branch is Dashboard.Predict, so it forecasts at the corrected positions. The callback exactly as written is Dashboard.UpdatePredictionAsWritten.
- Dashboard.PredictOfLine: states that the corrected forecast continues a line. The callback as written does not; it reads one day ahead, as Dashboard.AsWrittenOfLine states.
- Text.Title: only ASCII letters are cased, and only ASCII whitespace is stripped by Text.Strip; Unicode case mapping and whitespace are not modelled.

Facts about the code that a reader might not expect:

- The cleaner keeps rows whose date fails to parse (NaT). Only commodity, market, price and modal price are required.
- The cleaner does not sort its output. The (commodity, date) sort happens in the feature stage.
- On prices 10, 10, 10, 10, 1000 the cleaner removes nothing. The IQR is 0, so the step is skipped (Cleaner.SpikeAmongEqualPricesIsKept).
- A second outlier pass can remove more rows (Cleaner.RejectOutliersNotIdempotent).

## Findings

| source | as written | input that shows it | evidently intended | confidence | as-written member | corrected member |
|---|---|---|---|---|---|---|
| dashboard/app.py:242 | the price for day last_date + i is the trend at position len(last_prices) + i, while the window's prices sit at positions 0 .. len - 1, so day last_date + 1 is read at position len + 1 | prices 100, 102, 104, 106, 108 on five consecutive days: the fitted line is 100 + 2x and the first forecast is 112, one day beyond the line's 110 | the trend at position len - 1 + i, which gives 110 for the day after 108 | not executed | Dashboard.AsWrittenSkipsOneDay | Dashboard.IntendedContinuesLine |

The forecast in Dashboard.Predict, and so Dashboard.UpdatePrediction, uses the
corrected positions (Dashboard.IntendedPoints). The callback exactly as written
is Dashboard.UpdatePredictionAsWritten. Its fitted branch is
Dashboard.PredictAsWritten, which reads Dashboard.AsWrittenPoints, and each of
its prices is the corrected forecast's price for the following day.
