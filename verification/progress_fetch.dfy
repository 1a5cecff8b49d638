/** `fetchProgressData` as a whole: the four reads of the progress view in order, and how each
    one changes the view's state. */
module ProgressFetch {
  import opened Wrappers
  import opened Calendar
  import opened PhotoWindow
  import opened BodyMetrics
  import opened WeightSeries
  import opened Feedback

  /** Key of a `body_metrics` row: at most one per (user, month, year). */
  datatype MetricsKey = MetricsKey(user: string, month: int, year: int)

  /** What the store answers the view. `weights` is the result of the trailing-six-months query,
      already filtered and ordered by date, or `None` when it failed. */
  datatype Snapshot = Snapshot(
    photos: PhotoStore,
    metrics: map<MetricsKey, MetricsRow>,
    weights: Option<seq<WeightRecord>>)

  /** The parts of the view's state the fetch writes. */
  datatype ViewState = ViewState(
    monthPhotos: seq<MonthPhoto>,
    totalPhotos: nat,
    metrics: Metrics,
    series: seq<Point>,
    feedback: Choice)

  /** One refresh of the view for `user`, today's date and the selected month and year. */
  method FetchProgressData(
    previous: ViewState, store: Snapshot, user: string,
    todayYear: int, todayMonth: MonthIndex, selectedMonth: int, selectedYear: int)
    returns (next: ViewState)
    ensures |next.monthPhotos| == WindowLength
    ensures next.monthPhotos == Window(store.photos, user, todayYear, todayMonth)
    ensures next.totalPhotos == PresentCount(next.monthPhotos) <= WindowLength
    // Metrics are replaced only when the selected month has a row.
    ensures MetricsKey(user, selectedMonth, selectedYear) !in store.metrics ==> next.metrics == previous.metrics
    ensures MetricsKey(user, selectedMonth, selectedYear) in store.metrics ==>
      forall f :: Get(next.metrics, f) == OrZero(Column(store.metrics[MetricsKey(user, selectedMonth, selectedYear)], f))
    // The chart is replaced only when weight records came back (see `UpdateSeries`).
    ensures next.series == UpdateSeries(previous.series, store.weights)
    // The feedback is always recomputed from the row's presence and the photo count.
    ensures next.feedback ==
      SelectFeedback(MetricsKey(user, selectedMonth, selectedYear) in store.metrics, next.totalPhotos, selectedMonth, selectedYear)
    ensures 1 <= selectedMonth <= 12 && selectedYear >= 0 ==> InBounds(next.feedback)
  {
    var photos, photoCount := FetchPhotos(store.photos, user, todayYear, todayMonth);
    var key := MetricsKey(user, selectedMonth, selectedYear);
    var row := if key in store.metrics then Some(store.metrics[key]) else None;
    var metrics := Load(previous.metrics, row);
    var series := UpdateSeries(previous.series, store.weights);
    var feedback := SelectFeedback(row.Some?, photoCount, selectedMonth, selectedYear);
    if 1 <= selectedMonth <= 12 && selectedYear >= 0 {
      FeedbackInBounds(row.Some?, photoCount, selectedMonth, selectedYear);
    }
    next := ViewState(photos, photoCount, metrics, series, feedback);
  }

  /** `handleMetricUpdate`: the edited field goes into the state, the whole record is upserted
      under the selected month's key (when the store accepts the write), and the view refreshes.
      After a successful write the refresh reads back exactly the edited record; no other row of
      the store changes. */
  method HandleMetricUpdate(
    previous: ViewState, store: Snapshot, user: string,
    todayYear: int, todayMonth: MonthIndex, selectedMonth: int, selectedYear: int,
    field: Field, input: Option<real>, writeSucceeds: bool)
    returns (next: ViewState, store': Snapshot)
    ensures writeSucceeds ==>
      && store'.metrics == store.metrics[MetricsKey(user, selectedMonth, selectedYear) := AsRow(UpdateMetric(previous.metrics, field, input))]
      && next.metrics == UpdateMetric(previous.metrics, field, input)
    ensures !writeSucceeds ==> store' == store
    ensures !writeSucceeds && MetricsKey(user, selectedMonth, selectedYear) !in store.metrics ==>
      next.metrics == UpdateMetric(previous.metrics, field, input)
    ensures !writeSucceeds && MetricsKey(user, selectedMonth, selectedYear) in store.metrics ==>
      forall f :: Get(next.metrics, f) == OrZero(Column(store.metrics[MetricsKey(user, selectedMonth, selectedYear)], f))
    ensures store'.photos == store.photos && store'.weights == store.weights
    // The rest of the view refreshes as any fetch does, the feedback seeing the written row.
    ensures next.monthPhotos == Window(store.photos, user, todayYear, todayMonth)
    ensures next.totalPhotos == PresentCount(next.monthPhotos)
    ensures next.series == UpdateSeries(previous.series, store.weights)
    ensures next.feedback ==
      SelectFeedback(MetricsKey(user, selectedMonth, selectedYear) in store'.metrics, next.totalPhotos, selectedMonth, selectedYear)
    ensures writeSucceeds ==> next.feedback == SelectFeedback(true, next.totalPhotos, selectedMonth, selectedYear)
  {
    var key := MetricsKey(user, selectedMonth, selectedYear);
    var edited := UpdateMetric(previous.metrics, field, input);
    store' := if writeSucceeds then store.(metrics := store.metrics[key := AsRow(edited)]) else store;
    next := FetchProgressData(previous.(metrics := edited), store', user, todayYear, todayMonth, selectedMonth, selectedYear);
    if writeSucceeds {
      ReloadAfterEdit(previous.metrics, previous.metrics, field, input);
      Extensionality(next.metrics, edited);
    }
  }
}
