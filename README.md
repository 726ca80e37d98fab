# Wearable health dashboard: data pipeline model

A Dafny model of the logic inside the wearable health dashboard (`src/App.jsx`).
The dashboard makes up two weeks of sensor data, lets the user pick a time range
("week" or anything else) and a metric (steps or heart rate), and shows four
summary cards, a chart and a table. The model covers the pipeline under that UI:

- **Generator** (`generator.dfy`). `generateData` builds fourteen daily records,
  one per consecutive day, in a loop. It then overrides day 5 to 105 bpm and day
  10 to 110 bpm, and flags both days as anomalies. `GenerateData` is a method with
  that loop and the four in-place field writes. Its postcondition ties every
  record to that day's draws. `IsGeneratedDataset` states what holds whatever the
  draws are.
- **Derived view** (`view.dfy`). `FilteredData` is the time-range slice
  (`slice(-7)` for "week", otherwise the whole dataset). `ComputeStats` gives the
  summary cards: the rounded mean, the maximum, the minimum and the anomaly count.
  `ShowsRedDot` is the chart's red-dot test and `ElevatedRows` gives the table's
  "Elevated" rows.
- **Aggregates** (`aggregates.dfy`). These are the array built-ins the statistics
  use: `filter`, the summing `reduce`, `Math.max`, `Math.min`, and `Math.round` of
  the mean.
- **Records** (`records.dfy`). These are the entities: a daily record, the random
  draws for one day, the metric, and the "Elevated" predicate.
- **Dashboard** (`dashboard.dfy`). These are the consequences for generated data.
  Only days 5 and 10 can be elevated, because a random heart rate is at most 94.
  So the heart-rate anomaly card reads exactly 1 for the week view and exactly 2
  for the full range. The statistics also stay within the generator's ranges.

Modelling choices:

- Dates are whole-day offsets from the fixed start date 2024-11-15.
- `Math.random()` is replaced by one `Draw` per day: a step draw in [0, 5000),
  a heart-rate draw in [0, 30), and the boolean outcome of `Math.random() > 0.85`.
- `Math.round(sum / n)` is `(2 * sum + n) / (2 * n)` with Euclidean division.
  This is exact for every integer sum, because `Math.round(x)` is `floor(x + 1/2)`.
  `RoundedMean` states it as "nearest integer, ties upward".
- The time range stays a string, as in the source. Only the exact value "week"
  selects the last seven days.

## Model

| member | source | states |
|---|---|---|
| Generator.GenerateData | src/App.jsx:6-31 | returns 14 records; record k is dated k days after the start; its steps are its step draw + 6000; except on days 5 and 10 its heart rate is its draw + 65 and its flag is its anomaly draw; day 5 reads 105 bpm and day 10 reads 110 bpm, both flagged; the result is a generated dataset (steps in [6000, 10999], heart rate in [65, 94] off the forced days) |
| DerivedView.FilteredData | src/App.jsx:39-44 | for "week", the result is a suffix of the data of length min(7, n); for any other range it is the data itself |
| Records.MetricValue | src/App.jsx:67 | `d[metric]`: the steps of the day for the steps metric and its heart rate for the heart-rate metric |
| DerivedView.Values | src/App.jsx:67 | one value per row, in order, each the selected metric of that row |
| Aggregates.Filter | src/App.jsx:71-73 | keeps exactly the elements satisfying the predicate (both directions) and is no longer than its input; multiplicity, count and order are fixed by FilterMultiset, FilterLength and FilterAppend |
| Aggregates.FilterMultiset | src/App.jsx:71-73 | every element occurs in the filtered sequence as often as in the input when it satisfies the predicate, and not at all otherwise |
| Aggregates.FilterLength | src/App.jsx:71-73 | the filtered length (the `.length` the anomaly card shows) equals the number of positions whose element satisfies the predicate |
| Aggregates.FilterAppend | src/App.jsx:71-73 | filtering a concatenation is the concatenation of the filtered parts, so the input order is kept |
| Aggregates.MaxOf | src/App.jsx:69 | the result is one of the values and no value exceeds it |
| Aggregates.MinOf | src/App.jsx:70 | the result is one of the values and no value is below it |
| Aggregates.RoundedMean | src/App.jsx:68 | the result r satisfies r - 1/2 <= sum / n < r + 1/2, i.e. the mean rounded to nearest with ties upward, as `Math.round` does |
| Aggregates.RoundedMeanBounds | src/App.jsx:75 | the rounded mean of values within [lo, hi] lies within [lo, hi] |
| Aggregates.Sum | src/App.jsx:68 | no contract of its own: it is the left fold `((0 + v0) + v1) + ...` that the summing `reduce` computes; SumBounds and RoundedMean state what it gives |
| Aggregates.SumBounds | src/App.jsx:68 | a sum of n values within [lo, hi] lies within [n * lo, n * hi] |
| DerivedView.CountsAsAnomaly | src/App.jsx:71-72 | the filter's row test holds iff the metric is heart rate and the day is "Elevated" |
| DerivedView.Anomalies | src/App.jsx:71-73 | at most the number of rows; 0 for steps; for heart rate equal to the number of rows the table marks "Elevated" |
| Records.IsElevated | src/App.jsx:268 | a day is "Elevated" iff it is flagged and its heart rate exceeds the heart-rate anomaly threshold of 100 |
| DerivedView.ElevatedRows | src/App.jsx:262-268 | a row is kept iff it is flagged and its heart rate exceeds 100, and there are exactly as many as there are table rows labelled "Elevated" |
| DerivedView.ComputeStats | src/App.jsx:66-76 | min and max are among the metric values and bound every row's value; min <= avg <= max; avg is the mean rounded half up; anomalies is at most the row count, 0 for steps, and the number of "Elevated" rows for heart rate |
| DerivedView.ShowsRedDot | src/App.jsx:81 | a point is a red dot iff the metric is heart rate and the day is "Elevated" |
| Dashboard.OnlyForcedDaysElevated | src/App.jsx:17-28 | in a generated dataset, day k is "Elevated" iff k is 5 or 10 |
| Dashboard.WeekIsLastSevenDays | src/App.jsx:39-44 | for generated data the week view is days 7..13 in order, dated 7..13 days after the start |
| Dashboard.WeekElevatedRows | src/App.jsx:41 | the week view's "Elevated" rows are exactly day 10 |
| Dashboard.FullRangeElevatedRows | src/App.jsx:43 | the full range's "Elevated" rows are exactly days 5 and 10, in that order |
| Dashboard.GeneratedAnomalyCounts | src/App.jsx:71-73 | for generated data the anomaly count is 0 for steps, 1 for heart rate over the week and 2 for heart rate over any other range |
| Dashboard.GeneratedStatsRanges | src/App.jsx:66-70 | for generated data, step statistics satisfy 6000 <= min <= avg <= max <= 10999 and heart-rate statistics satisfy 65 <= min <= avg <= max <= 110 |
| Dashboard.StatsWithin | src/App.jsx:66-75 | when every shown value lies within [lo, hi], lo <= min <= avg <= max <= hi |
| Dashboard.FourDayExample | src/App.jsx:66-76 | heart rates 70, 105, 60 and 110, with the middle two flagged, give avg 86, max 110, min 60, 2 anomalies, and rows 2 and 4 "Elevated" |

## Left out

- React state, memoisation, JSX markup, styling, the chart library and the icons are presentation. They do not affect the values computed.
- The `dayOfWeek` label and the ISO date string are left out. They come from `Date`, `toISOString` and `toLocaleDateString`, which depend on the time zone and locale. A date is modelled as a day offset.
- `Math.random` is left out. It becomes explicit draws passed to `GenerateData`.
- Floating point is left out. The mean is computed exactly with integers, as described above.
- An empty row set is excluded by a precondition of `ComputeStats`, `MaxOf`, `MinOf` and `RoundedMean`. In the source it would give ±Infinity and NaN, but the views always hold 7 or 14 rows.
- The display-only settings are left out: colours, labels, the `threshold` lines and the steps anomaly threshold of 3000. The steps anomaly count is 0 whatever that threshold is.
- The overrides of days 5 and 10 write fields of record objects in place. `GenerateData` models them as updates of its local sequence. Nothing else holds a reference to those records before `generateData` returns, so no aliasing is lost.
- Number formatting with `toLocaleString` is left out.
