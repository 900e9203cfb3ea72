# Temperature dashboard: data-transformation core

This project models the data layer of a small React dashboard. The dashboard
plots one year of daily temperature readings twice. A line chart shows either
the monthly extremes or the daily readings of one selected month. A bar chart
shows the monthly extremes with month names in English or French.

The model covers:

- **The row filter** (`Records`). Both charts keep a parsed CSV row only if
  `max_temp` and `min_temp` are numbers and `1 <= Month <= 12`. Input order
  is kept. A kept row has the subset type `ValidRow`, so `Month - 1` is
  always an index into a 12-slot array.
- **The monthly aggregation** (`Aggregation`). Two 12-slot arrays start at
  -Infinity and +Infinity. One pass over the rows folds each row into slot
  `Month - 1` with `Math.max` and `Math.min`. The infinities are explicit:
  `Ext = NegInf | PosInf | Fin(v)`. `MonthlyExtremes` fills real arrays in a
  loop. It is proved equal to the recursive specifications `MonthlyMax` and
  `MonthlyMin`. Separate lemmas prove that these are the true maximum and
  minimum of the month's readings.
- **The daily series** (`Aggregation`). The rows of one month, in input
  order, each become one point. Its label is `"{Month}/{Day}"` and its values
  are the row's two readings. Rows that share a day are not merged.
- **The line chart component** (`LineChart`). Its state is `viewMode`,
  `monthFilter`, `data` and `dailyRaw`. It has a fetch-completion callback and
  the two select handlers. The ghost predicate `Consistent` says that the
  chart on display is the one the cached rows, mode and month call for. The
  handlers keep it true.
- **The bar chart component** (`BarChart`) and its text table.
- **The language toggle** (`Application`) and the month-name table
  (`Localization`). A language is the subset type of strings `"EN"` and
  `"FR"`.

Numbers are Dafny `real`s. The source only compares temperatures with
`Math.max` and `Math.min` and never does arithmetic on them. Decimal
rendering of integers, which the daily labels need, is in `Text`.

Behaviour of the code worth knowing:

- A month with no rows plots as -Infinity (maximum) and +Infinity (minimum).
  There is no "no data" marker. See `TwoJanuaryDaysMonthly`.
- Switching the view mode or the month also fetches again. Both are
  dependencies of the line chart's fetching effect
  (`src/TemperatureLineChart.js:121`). The handlers also recompute at once
  from the cached rows.
- The line chart's monthly labels are fixed English abbreviations. Only the
  bar chart labels its chart with the month names of the current language.
  The line chart uses them only for the options of its month select
  (`src/TemperatureLineChart.js:278`).
- The line chart's text table has entries that are never rendered. Its
  loading placeholder is the fixed text `Loading...`
  (`src/TemperatureLineChart.js:287`), not `labels.loading`, and
  `labels.view` and `labels.month` are not displayed either. `LineChart.Label`
  models the table as written.

## Model

| member | source | states |
|---|---|---|
| Records.IsValid | src/TemperatureLineChart.js:112-114 | A row passes only with both temperatures numeric and `Month` in 1..12, so a passing row's `Month - 1` is an index 0..11 of the 12-slot arrays |
| Records.Validate | src/TemperatureLineChart.js:111-115 | The validated sequence is never longer than the input; every element satisfies the filter (its type is `ValidRow`, so `Month - 1` lies in 0..11) |
| Records.ValidateSelectsValidRows | src/TemperatureLineChart.js:111-115 | The output is the order-preserving selection of exactly the rows with numeric temperatures and a month in 1..12: there are increasing positions covering precisely the valid rows, and output element j is the input row at position j |
| Records.ValidateMembership | src/TemperatureBarChart.js:42-46 | A row is in the validated sequence if and only if it is in the input and passes the filter (the bar chart's filter is the same one) |
| Records.ValidateAppend | src/TemperatureBarChart.js:42-46 | Filtering distributes over concatenation, so each row is judged on its own and the order is kept |
| Aggregation.ExtMax | src/TemperatureLineChart.js:130 | `Math.max` with ±Infinity: the result is one of the two arguments and at least both of them |
| Aggregation.ExtMin | src/TemperatureLineChart.js:131 | `Math.min` with ±Infinity: the result is one of the two arguments and at most both of them |
| Aggregation.MonthlyMax | src/TemperatureLineChart.js:128-132 | The value of slot `m - 1` of `monthlyMax` after the fold: never +Infinity, and at least the `max_temp` of every row of month m |
| Aggregation.MonthlyMin | src/TemperatureBarChart.js:51-55 | The value of slot `m - 1` of `monthlyMin` after the fold: never -Infinity, and at most the `min_temp` of every row of month m |
| Aggregation.MonthlyMaxIsMaximum | src/TemperatureLineChart.js:125-132 | The monthly maximum is never +Infinity. It is -Infinity exactly when month m has no rows. Otherwise it is the `max_temp` of some row of month m, and every row of month m has `max_temp` at most it |
| Aggregation.MonthlyMinIsMinimum | src/TemperatureBarChart.js:48-55 | The monthly minimum is never -Infinity. It is +Infinity exactly when month m has no rows. Otherwise it is the `min_temp` of some row of month m, and every row of month m has `min_temp` at least it |
| Aggregation.AccumulateRow | src/TemperatureLineChart.js:128-132 | Processing one row updates slot `Month - 1` of each array with max/min of the old slot and the reading; the other 11 slots are unchanged |
| Aggregation.MonthlyExtremes | src/TemperatureBarChart.js:48-55 | Two arrays of 12 slots, seeded with -Infinity and +Infinity and filled in one in-place pass, end with slot k equal to the maximum and minimum of month k + 1 |
| Aggregation.MonthlySeries | src/TemperatureBarChart.js:57-69 | The monthly chart has 12 labels and two 12-long series, positionally aligned |
| Aggregation.RowsOfMonth | src/TemperatureLineChart.js:155 | The rows of the month are never more than the rows given |
| Aggregation.RowsOfMonthSelects | src/TemperatureLineChart.js:155 | The daily filter is the order-preserving selection of exactly the rows whose month is the filter month, with no deduplication |
| Aggregation.DailySeries | src/TemperatureLineChart.js:155-158 | Labels, maxima and minima all have length equal to the number of rows of the month |
| Aggregation.DailySeriesFollowsRows | src/TemperatureLineChart.js:155-158 | Point j is made from the j-th row of the month in input order: its label is that row's `Month/Day` and its values are that row's `max_temp` and `min_temp`; every row of the month gives one point |
| Aggregation.DayLabel | src/TemperatureLineChart.js:156 | The label `${Month}/${Day}` has a slash, and cut at its first slash it splits into the renderings of the row's month and day |
| Aggregation.DayLabelIdentifiesDate | src/TemperatureLineChart.js:156 | Two rows get the same `${Month}/${Day}` label if and only if they have the same month and the same day |
| Text.IntToString | src/TemperatureLineChart.js:156 | Rendering of an integer in a template literal, in canonical form: non-empty; a leading '-' exactly for negative numbers, followed by the digits of the magnitude; no leading zero except for 0 itself; parsing the rendering back gives the integer |
| Text.IntToStringInjective | src/TemperatureLineChart.js:156 | Distinct integers render as distinct strings (a consequence of the round trip) |
| Localization.MonthNames | src/TemperatureBarChart.js:21-26 | Each language has 12 month names, pairwise distinct (the same table appears at `src/TemperatureLineChart.js:25-30`) |
| LineChart.Label | src/TemperatureLineChart.js:32-39 | The line chart's text table has a non-empty entry for every key in both languages |
| LineChart.LabelsTranslated | src/TemperatureLineChart.js:32-39 | Every entry of the text table differs between English and French |
| LineChart.MonthlyLabelsAbbreviateMonthNames | src/TemperatureLineChart.js:135-136 | The 12 monthly labels are the first three letters of the English month names, so they are in calendar order and do not follow the language |
| LineChart.ChartFor | src/TemperatureLineChart.js:123-180 | The published chart is aligned; in monthly mode its labels are the fixed abbreviations; in daily mode it has one point per row of the filter month |
| LineChart.MonthlyIgnoresMonth | src/TemperatureLineChart.js:124-153 | The monthly branch does not read the filter month |
| LineChart.UpdateChartData | src/TemperatureLineChart.js:123-180 | The imperative `updateChartData` (array fill in monthly mode, filter and map in daily mode) yields exactly `ChartFor(rows, mode, month)` |
| LineChart.TwoJanuaryDaysMonthly | src/TemperatureLineChart.js:125-136 | For readings (5, -2) and (8, 0) on January 1 and 2, January plots 8 and -2, and each of the other eleven months plots -Infinity and +Infinity |
| LineChart.TwoJanuaryDaysDaily | src/TemperatureLineChart.js:155-158 | For the same readings the daily view of January is labels `1/1`, `1/2` with maxima 5, 8 and minima -2, 0; March is empty |
| LineChart.TemperatureLineChart.constructor | src/TemperatureLineChart.js:41-44 | Initial state: monthly view, month 1, no chart, no cached rows |
| LineChart.TemperatureLineChart.Complete | src/TemperatureLineChart.js:110-119 | Fetch completion caches the validated rows and charts them with the mode and month the effect captured; the state is consistent when those are still current |
| LineChart.TemperatureLineChart.HandleViewChange | src/TemperatureLineChart.js:182-186 | Stores the new mode, keeps month and cached rows, and recomputes the chart from the cached rows with the new mode; the state is consistent afterwards |
| LineChart.TemperatureLineChart.HandleMonthChange | src/TemperatureLineChart.js:188-194 | Always stores the new month; recomputes from the cached rows only in daily mode and otherwise leaves the chart unchanged; consistency is preserved |
| BarChart.LabelText | src/TemperatureBarChart.js:28-31 | The bar chart's text table has a non-empty title and loading text in both languages |
| BarChart.BarData | src/TemperatureBarChart.js:57-71 | The bar chart is labelled with the 12 month names of the language, aligned with the two 12-long series |
| BarChart.ValuesIgnoreLanguage | src/TemperatureBarChart.js:48-58 | The same rows give the same maxima and minima in English and in French |
| BarChart.BuildBarData | src/TemperatureBarChart.js:41-71 | Filtering, the one-pass array fill and labelling give exactly `BarData(Validate(raw), lang)` |
| BarChart.TemperatureBarChart.constructor | src/TemperatureBarChart.js:34 | No chart before the first fetch completes |
| BarChart.TemperatureBarChart.Complete | src/TemperatureBarChart.js:41-72 | Fetch completion stores the bar chart of the validated rows in the language of the fetch |
| Application.Toggle | src/App.js:12 | The result is always `EN` or `FR` and always differs from the previous value; it is `FR` exactly when the previous value was `EN` |
| Application.ToggleTwice | src/App.js:11-13 | Toggling twice returns the original language |
| Application.App.constructor | src/App.js:9 | The initial language is `EN` |
| Application.App.ToggleLanguage | src/App.js:11-13 | The new language is the toggle of the old one, so it stays `EN` or `FR` |

## Left out

- CSV download and parsing (`Papa.parse`) are not modelled. The parsed rows are a parameter (`raw`) of the completion callbacks.
- The scheduling of effects is not modelled: when a fetch starts, and the order in which overlapping fetches complete. `TemperatureLineChart.Complete` takes the mode and month its effect captured. Consistency is only promised when these are still current, because a stale fetch completing late can overwrite a newer chart.
- JavaScript coercions are not modelled: `isNaN` of `null`, strings, empty cells, non-integer `Month` values. A temperature is `Num(real)` or `NotNum`. `Month` and `Day` are integers.
- IEEE floating point is not modelled. Readings are reals. The two infinities the arrays start from are explicit values. NaN cannot reach the aggregation because the filter removes it.
- `Text.IntToString` covers only integral numbers, because `Day` is modelled as an integer.
- `updateChartData` is defined twice in the source, inside the effect (`src/TemperatureLineChart.js:47-104`) and at component level (`:123-180`). The two are identical, so it is modelled once.
- `updateChartData` does nothing for a mode other than `'monthly'` and `'daily'`. `ViewMode` has only the two values the select offers, so that branch does not exist in the model.
- `handleMonthChange` parses the select's value with `parseInt`. The model receives the month as an integer.
- JSX rendering is not modelled. This covers chart options, colours, `tension`, the dataset names `Max Temp (°C)` / `Min Temp (°C)`, the month select's options, the inline prompts chosen by `language === 'EN'`, and the choice between chart and loading text.
- React applies state updates asynchronously. The model applies each handler's updates at once.
