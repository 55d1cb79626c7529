# Crypto price predictor: daily series, forecast and report

A Dafny model of the sequential logic of the crypto price predictor page
(`crypto-price-predictor-main/script.js`). The page fetches 15 days of price samples for a coin,
collapses them to one price per calendar day, and on request draws a synthetic 30-day forecast.
It then summarises that forecast in a report.

- `calendar.dfy` (`Calendar`): timestamps in milliseconds and UTC day numbers (`DayOf`, floor division by 86 400 000).
- `rounding.dfy` (`Rounding`): `+x.toFixed(2)` as rounding to whole cents, half away from zero, on exact reals.
- `normalizer.dfy` (`Normalizer`): the first-sample-wins collapse of `loadHistoricalData`. `Normalized` specifies it over the
  samples seen so far. `FirstIndex` is an independent reference for "the first sample of a day". The lemmas state uniqueness,
  coverage, first-wins, first-encounter order and chronological order.
- `forecast.dfy` (`Forecast`): the growth-plus-fluctuation formula of `generatePrediction`, its envelope, and the forecast dates.
- `summary.dfy` (`Summary`): the average, minimum, maximum and trend of `generateReport`.
- `session.dfy` (`Session`): the class `PredictorState` holds the page's four global arrays.
  `LoadHistoricalData` runs the `forEach` over an insertion-ordered map and reassigns the arrays.
  `GeneratePrediction` returns early on an empty history, otherwise clears the forecast buffers and pushes 30 entries in a loop.

Prices are `real`. Dates are integer day numbers: day 0 is 1970-01-01. The 30 `Math.random` draws are the parameter
`randoms`. "Today" is the parameter `today`, the local calendar day number. The report is returned as a value
(`Option<Report>`) instead of being written into the page.

Two details follow the page's code exactly:
- The trend is `Upward` exactly when the last prediction is strictly greater than the first, so equal values give `Downward`.
- `toFixed(2)` rounds half away from zero.
- The forecast dates do not: the model uses local calendar days, for the reason given under "## Findings".

## Model

| member | source | states |
|---|---|---|
| Calendar.DayOf | crypto-price-predictor-main/script.js:60 | the day of a timestamp is the `d` with `d * 86400000 <= t < (d + 1) * 86400000`, i.e. UTC floor division |
| Calendar.DayOfMonotone | crypto-price-predictor-main/script.js:60 | a later timestamp never maps to an earlier day |
| Calendar.DayOfUnique | crypto-price-predictor-main/script.js:60 | any day whose window contains the instant is its day |
| Rounding.Cents | crypto-price-predictor-main/script.js:67 | the cent count is the nearest integer to `100 x`, ties away from zero, with the sign of `x` |
| Rounding.Round2 | crypto-price-predictor-main/script.js:67 | the rounded price is within half a cent of the price and keeps its sign |
| Rounding.Round2Monotone | crypto-price-predictor-main/script.js:226-228 | rounding preserves order (`x <= y` implies `Round2(x) <= Round2(y)`) |
| Rounding.Round2Idempotent | crypto-price-predictor-main/script.js:157 | a rounded price is a fixed point of rounding |
| Normalizer.FirstIndex | crypto-price-predictor-main/script.js:61-62 | reference for "first": an index on the given day with no earlier sample on that day |
| Normalizer.FirstIndexIsLeast | crypto-price-predictor-main/script.js:61-62 | the earliest index on a day is unique |
| Normalizer.NormalizedUnique | crypto-price-predictor-main/script.js:58-66 | no two entries of the daily series share a date |
| Normalizer.NormalizedCovers | crypto-price-predictor-main/script.js:59-66 | a day has an entry if and only if some input sample falls on it (empty input gives an empty series) |
| Normalizer.NormalizedFirstWins | crypto-price-predictor-main/script.js:61-63 | each entry's price is the price of the earliest sample on its day |
| Normalizer.NormalizedFirstEncounterOrder | crypto-price-predictor-main/script.js:59-66 | entries appear in the order in which their days are first met |
| Normalizer.NormalizedChronological | crypto-price-predictor-main/script.js:59-66 | on input sorted by timestamp, the entries' days strictly increase |
| Normalizer.LaterSampleIgnored | crypto-price-predictor-main/script.js:61-63 | a sample on a day already present leaves the series unchanged |
| Session.PredictorState.constructor | crypto-price-predictor-main/script.js:2-3 | all four buffers start empty |
| Session.PredictorState.LoadHistoricalData | crypto-price-predictor-main/script.js:57-82 | labels and prices are the keys and the cent-rounded values of the normalised series, equally long with distinct labels; the forecast buffers are emptied |
| Session.PredictorState.GeneratePrediction | crypto-price-predictor-main/script.js:138-166 | empty history: no report and nothing changes; otherwise exactly 30 prices, price `k` is the rounded formula on the last actual price and the `k`-th draw, labels `today + 1 ..`, history unchanged, report from the new forecast |
| Forecast.PredictionWithinEnvelope | crypto-price-predictor-main/script.js:144-156 | for a draw in [0, 1) the unrounded forecast is within 1% of the baseline's magnitude of the trend `lastPrice * (1 + 0.005 i)` |
| Forecast.RoundedPredictionWithinEnvelope | crypto-price-predictor-main/script.js:155-157 | the pushed, rounded price is within 1% of the baseline plus half a cent of the trend |
| Forecast.FutureLabels | crypto-price-predictor-main/script.js:151-161 | 30 labels, the first is the day after today and each is one day after the previous |
| Forecast.IsoDateOfLocalMidnight | crypto-price-predictor-main/script.js:159-161 | the printed label is the UTC day containing the UTC instant of local midnight |
| Forecast.IsoDateAheadOfUtc | crypto-price-predictor-main/script.js:151-161 | in a zone ahead of UTC the printed label is the previous local day |
| Forecast.IsoDateAtOrBehindUtc | crypto-price-predictor-main/script.js:151-161 | in a zone at or less than a day behind UTC the printed label is the local day itself |
| Forecast.IsoLabelsRepeatWhenOffsetTurnsPositive | crypto-price-predictor-main/script.js:151-161 | when the UTC offset goes from <= 0 at one local midnight to > 0 at the next, the two days print the same date |
| Forecast.IsoLabelsRepeatAcrossDst | crypto-price-predictor-main/script.js:159-161 | witness: in Europe/London the local days 2026-03-29 and 2026-03-30 both print 2026-03-29 |
| Summary.Min | crypto-price-predictor-main/script.js:227 | the minimum bounds every element from below and is one of them |
| Summary.Max | crypto-price-predictor-main/script.js:228 | the maximum bounds every element from above and is one of them |
| Summary.MeanBetween | crypto-price-predictor-main/script.js:226-228 | the mean (sum by left fold, divided by the count) lies between minimum and maximum |
| Summary.TrendOf | crypto-price-predictor-main/script.js:231 | `Upward` if and only if the end is strictly above the start |
| Summary.Summarize | crypto-price-predictor-main/script.js:225-234 | reported minimum <= average <= maximum after rounding; trend up iff last > first; ending is the last prediction; starting price is the last actual price rounded |
| Summary.ReportBoundsPredictions | crypto-price-predictor-main/script.js:226-229 | for cent-valued predictions the reported minimum and maximum are predictions and bound every prediction |

## Left out

- The CoinGecko search and market-chart requests and their JSON parsing (script.js:21-22, 53-55): network I/O. The samples are a parameter.
- The suggestion list, click handler, visibility toggling, HTML templating of the report and the alert (script.js:14-49, 69-73, 140, 236-249): page rendering.
- Chart construction and destruction (script.js:75-80, 85-136, 164, 168-223): a foreign charting library.
- `Math.random` (script.js:155): replaced by the 30 values of `randoms`. Only the envelope lemmas assume they lie in [0, 1).
- IEEE-754 doubles: prices are exact reals. `toFixed(2)` is modelled on the exact value. Its exponent notation at or above 1e21 and the decimal-to-double conversion by unary `+` are not modelled.
- Timezone rules: a zone is represented only by its UTC offset at a given local midnight, in the finding below. Which offset a real zone uses on a given day is not modelled.
- Overlapping asynchronous coin selections (later response wins): concurrency, not modelled.
- Timestamps outside the range `Date` accepts (where `toISOString` throws) are not modelled.
- Forecast.PredictionWithinEnvelope: states the bound with `<=` on both sides. For a positive baseline, the upper bound is in fact strict because the draw is below 1.
- Session.PredictorState.GeneratePrediction: sets the labels to the local days `today + i`, not to what the page prints. The page prints the UTC date of each local midnight, which is one day early in zones ahead of UTC and repeats or skips a day across a daylight-saving change; see "## Findings".
- Summary.Summarize: requires a non-empty forecast and history. `generateReport` has no guard, but its only caller reaches it after 30 pushes and after the empty-history check.

## Findings

| source | as written | input that shows it | evidently intended | confidence | as-written member | corrected member |
|---|---|---|---|---|---|---|
| crypto-price-predictor-main/script.js:151-161 | each forecast label is the UTC date (`toISOString`) of a local-midnight `Date` | Europe/London, today 2026-03-19: local 2026-03-29 starts at 00:00 UTC and local 2026-03-30 at 23:00 UTC on 2026-03-29, so days 10 and 11 both print "2026-03-29"; in any zone ahead of UTC every label is one day early, so day 1 prints today's date | the local calendar day `today + i`, one day apart, starting the day after today | not executed; high for the repeat under the stated offsets | Forecast.IsoLabelsRepeatAcrossDst | Forecast.FutureLabels |
