# Fitness progress dashboard — Dafny model

This project models the deterministic logic of a fitness-tracking dashboard. There are two parts.

- The progress view (`ProgressModule`) does four things:
  - It builds a twelve-month photo history, most recent month first, and counts the months that have a photo.
  - It loads the body metrics of the selected month.
  - It turns weight records into a chart of monthly means, grouped by three-letter month name.
  - It picks a motivational message from one of two fixed tables.
- The weight endpoint (`POST`) checks that `userId`, `weight` and `date` are present. It then inserts one `weight_records` row and answers 200, 400 or 500.

The store is never called. A read is a snapshot: a map keyed by (user, month, year), or a list of weight records already filtered and ordered by date. The endpoint's insert is a function parameter: it returns what the store answers to the row it receives.

Modules follow the program:

- `Calendar`: the month arithmetic of `new Date(year, month - i, 1)`.
  - A month index outside 0..11 carries into the year.
  - A year argument of 0..99 means 1900..1999.
- `PhotoWindow`: the photo loop of `fetchProgressData`.
- `BodyMetrics`: the eight-field metrics record, the edit and load rules, and the three progress bars.
- `WeightSeries`: monthly bucketing of weight records.
- `Feedback`: which table entry becomes the feedback. The message texts are not modelled.
- `ProgressFetch`: one refresh of the view, and the metric-edit handler.
- `JsValues` and `WeightEndpoint`: decoded JSON with JavaScript truthiness, and the handler.

A few choices:

- Weights and metrics are exact `real`s. Every value that goes through `parseFloat` is an `Option<real>`, with `None` for NaN: an edited metric, the endpoint's weight, and each weight record's `weight` column. In the chart NaN absorbs every sum it enters (`WeightSeries.Plus`), so one unparsable or null weight makes its month's point NaN, as in JavaScript.
- JavaScript's `%` truncates toward zero. `Feedback.JsRemainder` models it, so a `month + year + photoCount` that is negative and not a multiple of 12 gives a missing entry (JavaScript `undefined`). A non-negative sum, or a negative multiple of 12, never does.
- Weight records are grouped by month name alone. Records of the same month in different years share one bucket, as the code does. `WeightSeries.SameMonthNameAcrossYearsMerges` states it for two records.

Three behaviours of the code are easy to misread:

- The 400 message is `Dados incompletos`.
- When the selected month has no metrics row, the view keeps its previous metrics. It does not reset them to 0.
- The chart is also kept when the weight query returns no records.

## Model

| member | source | states |
|---|---|---|
| Calendar.FromMonthNumber | src/components/fitness/progress-module.tsx:78-80 | every month number maps to a month in 1..12 whose month number is the input |
| Calendar.MonthNumberRoundTrip | src/components/fitness/progress-module.tsx:78-80 | month number followed by its inverse gives back any valid calendar month |
| Calendar.MonthNumberInjective | src/components/fitness/progress-module.tsx:78-80 | two valid calendar months are equal exactly when their month numbers are |
| Calendar.PreviousMonthNumber | src/components/fitness/progress-module.tsx:77-80 | the calendar predecessor, with January going back to December of the previous year, is one month number lower |
| Calendar.DateMonth | src/components/fitness/progress-module.tsx:78-80 | the `Date` constructor's (month, year) is always a month in 1..12, and its month number is the constructor year times 12 plus the month index |
| Calendar.DateMonthInRange | src/components/fitness/progress-module.tsx:78-80 | for a month index in 0..11 the constructor keeps the month (plus one) and the constructor year |
| Calendar.DateMonthStep | src/components/fitness/progress-module.tsx:77-80 | lowering the month index by one gives exactly the previous calendar month, across year boundaries |
| Calendar.MonthNameSetSize | src/components/fitness/progress-module.tsx:60 | the month-name table has twelve distinct labels |
| PhotoWindow.Lookup | src/components/fitness/progress-module.tsx:82-88 | a point lookup finds a row exactly when the store holds one under the (user, month, year) key |
| PhotoWindow.SlotUrl | src/components/fitness/progress-module.tsx:93 | a slot has a URL exactly when a row exists and its URL is non-null and non-empty, and then it is that URL |
| PhotoWindow.FetchPhotos | src/components/fitness/progress-module.tsx:73-99 | the loop yields exactly the twelve slots of the reference window, and the count of slots that have a URL, at most 12 |
| PhotoWindow.PresentCountIsCount | src/components/fitness/progress-module.tsx:96-98 | the photo count is the number of positions whose slot has a URL |
| PhotoWindow.WindowMonthsValid | src/components/fitness/progress-module.tsx:510 | every slot's month is in 1..12, so `monthNames[photo.month - 1]` is always defined |
| PhotoWindow.WindowSteps | src/components/fitness/progress-module.tsx:77-80 | each slot after the first is the calendar month before the previous slot, rolling January back to December of the previous year |
| PhotoWindow.WindowDistinct | src/components/fitness/progress-module.tsx:77-94 | no (month, year) pair appears twice in the history |
| PhotoWindow.WindowShape | src/components/fitness/progress-module.tsx:77-94 | 12 slots, each month in 1..12 and a valid index into the name table; the first is today's month; each later slot is the previous calendar month of the one before; no month appears twice |
| PhotoWindow.WindowStartsToday | src/components/fitness/progress-module.tsx:74-80 | for any year outside 0..99 the first slot is today's month and year |
| PhotoWindow.WindowUrls | src/components/fitness/progress-module.tsx:82-94 | a slot has a URL exactly when the store holds a non-empty URL for that slot's month, and it is that URL |
| Feedback.JsRemainder | src/components/fitness/progress-module.tsx:236 | JavaScript's remainder lies strictly between -b and b, takes the dividend's sign, and equals the Euclidean one for a non-negative dividend |
| Feedback.CountNoun | src/components/fitness/progress-module.tsx:216 | the singular wording is chosen exactly when the count is 1 |
| Feedback.SelectFeedback | src/components/fitness/progress-module.tsx:172-238 | without metrics, or with fewer than 3 photos, the result is the photo-count entry clamped to 12; otherwise a personalised entry with plural wording whose index is congruent to month + year + photoCount modulo 12; the entry is missing exactly when that sum is negative and not a multiple of 12 |
| Feedback.FeedbackInBounds | src/components/fitness/progress-module.tsx:231-237 | for a month in 1..12 and a year from 0 on, the entry is always in its table, and the personalised index is (month + year + photoCount) mod 12 |
| Feedback.PriorityIgnoresMetrics | src/components/fitness/progress-module.tsx:231-233 | with fewer than 3 photos the choice is photo-count entry photoCount, with or without metrics and for any month and year |
| Feedback.Entry | src/components/fitness/progress-module.tsx:205-237 | a text is found exactly when the chosen index is within its table, and it is that table's entry |
| BodyMetrics.Set | src/components/fitness/progress-module.tsx:289 | the named field takes the new value and every other field keeps its value |
| BodyMetrics.SetOwnValue | src/components/fitness/progress-module.tsx:289 | writing a field's own value back changes nothing |
| BodyMetrics.SetTwice | src/components/fitness/progress-module.tsx:289 | of two edits to one field the later wins |
| BodyMetrics.SetCommutes | src/components/fitness/progress-module.tsx:289 | edits to different fields commute |
| BodyMetrics.OrZero | src/components/fitness/progress-module.tsx:115-122 | a value that does not parse becomes 0, and a parsed value is kept |
| BodyMetrics.UpdateMetric | src/components/fitness/progress-module.tsx:288-290 | an edit sets the named field to the parsed input, or 0 for NaN, and leaves the other seven unchanged |
| BodyMetrics.Load | src/components/fitness/progress-module.tsx:113-124 | with no row the state is unchanged; with a row every field becomes its column's value, or 0 |
| BodyMetrics.LoadForgetsPrevious | src/components/fitness/progress-module.tsx:113-124 | a loaded row does not depend on the previous state, and loading it twice is the same as once |
| BodyMetrics.AsRow | src/components/fitness/progress-module.tsx:295-300 | the upserted row carries every field's number in its column |
| BodyMetrics.ReloadAfterEdit | src/components/fitness/progress-module.tsx:288-306 | reading back the row an edit wrote restores exactly the edited state |
| BodyMetrics.Bar | src/components/fitness/progress-module.tsx:562 | a bar never exceeds 100, is the scaled value below 100 and saturates at 100 |
| BodyMetrics.WeightLostBar | src/components/fitness/progress-module.tsx:562 | the weight-lost bar is in 0..100 and is full exactly when at least 5 kg were lost or gained |
| BodyMetrics.BodyFatBar | src/components/fitness/progress-module.tsx:575 | the fat bar is in 0..100 and is full exactly when the change is at least 4 points either way |
| BodyMetrics.MuscleBar | src/components/fitness/progress-module.tsx:588 | the muscle bar never exceeds 100; it is negative exactly when the muscle gained is negative, and full exactly when 33 times it reaches 100 |
| BodyMetrics.InitialBarsEmpty | src/components/fitness/progress-module.tsx:46-55 | the all-zero metrics the view starts with leave all three bars empty |
| WeightSeries.IndexOf | src/components/fitness/progress-module.tsx:145-147 | the lookup finds a bucket with the month name, or reports that none has it |
| WeightSeries.Plus | src/components/fitness/progress-module.tsx:149 | adding two numbers gives NaN exactly when either is NaN, and otherwise their sum |
| WeightSeries.Mean | src/components/fitness/progress-module.tsx:155 | a bucket's mean is NaN exactly when its sum is, and otherwise times the count gives the sum back |
| WeightSeries.AddRecord | src/components/fitness/progress-module.tsx:141-151 | names stay distinct; an existing bucket gains the weight (NaN-absorbing) and one to its count, and all others stay unchanged; a new name opens a bucket (name, 0 + weight, 1) at the end; the total count grows by exactly one |
| WeightSeries.Group | src/components/fitness/progress-module.tsx:139-151 | the bucket names are pairwise distinct, one bucket per key |
| WeightSeries.GroupNames | src/components/fitness/progress-module.tsx:141-147 | the bucket names are exactly the month names of the records |
| WeightSeries.GroupTotals | src/components/fitness/progress-module.tsx:145-150 | each bucket's count and sum are those of all records with its month name, whatever their year, and every count is positive |
| WeightSeries.GroupContents | src/components/fitness/progress-module.tsx:139-151 | names, counts and sums of the buckets together, as the two lemmas above |
| WeightSeries.AddRecordKeepsOrder | src/components/fitness/progress-module.tsx:145-147 | opening a bucket only at the end keeps the buckets in first-encounter order of the keys |
| WeightSeries.GroupOrder | src/components/fitness/progress-module.tsx:141-153 | buckets come in the order their month names are first met among the records |
| WeightSeries.GroupCountsAllRecords | src/components/fitness/progress-module.tsx:145-150 | the bucket counts add up to the number of records |
| WeightSeries.GroupAtMostTwelve | src/components/fitness/progress-module.tsx:143 | there are never more than 12 buckets |
| WeightSeries.Points | src/components/fitness/progress-module.tsx:153-157 | one point per bucket, named after it, whose weight is NaN exactly when the bucket's sum is, and otherwise times the count gives the bucket's sum |
| WeightSeries.Series | src/components/fitness/progress-module.tsx:137-157 | the chart has at most 12 points |
| WeightSeries.SeriesIsMonthlyMean | src/components/fitness/progress-module.tsx:153-155 | each point's weight is the mean weight of all records with its month name, NaN exactly when their sum is |
| WeightSeries.NaNPoisonsMonth | src/components/fitness/progress-module.tsx:149 | a month's weight sum is NaN exactly when one of the records with that month name has a NaN weight |
| WeightSeries.UpdateSeries | src/components/fitness/progress-module.tsx:137-160 | a failed or empty fetch leaves the previous chart unchanged; otherwise the chart is replaced by the monthly means of the fetched records, 1 to 12 points |
| WeightSeries.SameMonthNameAcrossYearsMerges | src/components/fitness/progress-module.tsx:141-155 | two records of the same month, whatever their years, give a single point: the month's name and their mean weight, or NaN when either weight is NaN |
| JsValues.FalsyValues | src/app/api/dashboard/weight/route.ts:8 | the falsy values are exactly undefined, null, false, 0 and the empty string |
| JsValues.Property | src/app/api/dashboard/weight/route.ts:6 | destructuring reads an object's own field, and undefined for a missing field or a primitive |
| JsValues.ParseFloat | src/app/api/dashboard/weight/route.ts:20 | a number is kept, a string goes through the text parser, and booleans and objects give NaN |
| WeightEndpoint.InsertFor | src/app/api/dashboard/weight/route.ts:16-24 | the inserted row carries `userId` and `date` unchanged and the parsed `weight` |
| WeightEndpoint.Post | src/app/api/dashboard/weight/route.ts:4-42 | a malformed or null body gives 500 with the generic message and no insert; a falsy field gives 400 'Dados incompletos' and no insert; otherwise exactly one insert, then 200 with the row, 500 with the store's message, or 500 generic on an exception |
| WeightEndpoint.InsertsAtMostOne | src/app/api/dashboard/weight/route.ts:8-24 | at most one insert, and one exactly when the body decodes to a value whose three fields are all truthy |
| WeightEndpoint.StatusClassification | src/app/api/dashboard/weight/route.ts:8-41 | 400 exactly for a falsy field; 200 exactly when the store inserted; the status is 200, 400 or 500; a 500 carries either the generic message or the store's own message |
| WeightEndpoint.ZeroWeight | src/app/api/dashboard/weight/route.ts:8 | a numeric weight 0 is rejected with 400, while the string "0" is inserted |
| WeightEndpoint.UnparsableWeightIsStored | src/app/api/dashboard/weight/route.ts:20 | a weight string that does not parse is still inserted, as NaN |
| ProgressFetch.FetchProgressData | src/components/fitness/progress-module.tsx:68-163 | photos are the reference window and the count is their photo count; metrics change only if the selected month has a row; the chart is the series update of the fetched records (unchanged if none came back); the feedback follows the row's presence and the photo count and is in its table for any year from 0 on |
| ProgressFetch.HandleMetricUpdate | src/components/fitness/progress-module.tsx:288-306 | after a successful write the store holds the edited record under the selected key and the refresh shows exactly that record; a failed write leaves the store unchanged and the refresh shows the stored row if there is one, else the edited state; photos, chart and feedback refresh as in a fetch, the feedback seeing the row the write left |

## Left out

- Store access: every read and write goes through the hosted database client. Reads are snapshots and the endpoint's insert is a parameter. The uniqueness of rows per (user, month, year) is taken as the shape of the maps; it is not proved.
- The weight query: its date bound (six months before today, lines 127-135) and its date ordering are the store's work. The model receives the resulting list.
- React state, `useEffect` refetch triggers, the `loading` flag, all JSX, the radar data and the Recharts charts are rendering. So is the fallback text shown when the feedback is empty.
- Photo upload (`handleImageUpload`, lines 241-286): browser file reading and a timer. Overlapping uploads would race. `openMonthPhoto` only opens a dialog.
- Floating point: weights are exact reals. `toFixed(1)` rounding, the `20 - (mean - 80) * 0.5` body-fat estimate, Infinity and -0 are not modelled. NaN is `None` only where a value is parsed; NaN arithmetic is modelled only in the chart's sums and means.
- `parseFloat` on text is a parameter of the endpoint model. An array is treated as a plain object, so a weight of `[72]` reads as NaN, where JavaScript would parse "72".
- Date parsing and time zones behind `new Date(record.date).getMonth()`: each record carries its month index. Invalid dates and dates outside JavaScript's `Date` range are not modelled.
- The personalised message texts: which metrics they interpolate and how numbers are formatted. The model fixes only the table entry and its singular/plural wording.
- Logging with `console.error` and `console.log`.
- Exceptions inside `fetchProgressData`: the store client reports errors as values, and the model reads a failed read as a missing row or `None`.
- ProgressFetch.HandleMetricUpdate: edits are taken one at a time, each refresh finishing before the next edit. The code starts the refresh without awaiting it and every keystroke starts its own upsert and refresh, so overlapping edits can let an older row overwrite a newer edit in the view; that interleaving is not modelled. An upsert that throws, which skips the refresh through the `catch` at lines 307-309, is not modelled either, because the store client reports errors as values.
- Feedback.JsRemainder: for a negative dividend its own contract gives only the sign and the magnitude bound. The congruence modulo 12 is stated and proved on `Feedback.SelectFeedback`, where the divisor is the table size.
