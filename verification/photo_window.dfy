/** The trailing twelve-month photo history of the progress view (`fetchProgressData`, first step):
    one slot per calendar month, most recent first, each with the month's photo URL if one is stored. */
module PhotoWindow {
  import opened Wrappers
  import opened Calendar

  /** Number of months the history covers. */
  const WindowLength := 12

  /** Key of a `progress_photos` row: the store keeps at most one row per (user, month, year). */
  datatype PhotoKey = PhotoKey(user: string, month: int, year: int)

  /** A `progress_photos` row as the view selects it: its `photo_url` column, null as `None`. */
  datatype PhotoRow = PhotoRow(photoUrl: Option<string>)

  /** The `progress_photos` table, seen as a snapshot. */
  type PhotoStore = map<PhotoKey, PhotoRow>

  /** One slot of the history, as the view keeps it. */
  datatype MonthPhoto = MonthPhoto(month: int, year: int, photoUrl: Option<string>)

  function CalendarMonth(p: MonthPhoto): YearMonth
  {
    YearMonth(p.month, p.year)
  }

  /** Point lookup of one row; a missing row reads as `None`. */
  function Lookup(store: PhotoStore, key: PhotoKey): (row: Option<PhotoRow>)
    ensures row.Some? <==> key in store
    ensures row.Some? ==> row.value == store[key]
  {
    if key in store then Some(store[key]) else None
  }

  /** True when the row holds a URL that JavaScript counts as truthy, i.e. a non-empty one. */
  predicate HasPhoto(row: Option<PhotoRow>)
  {
    row.Some? && row.value.photoUrl.Some? && row.value.photoUrl.value != ""
  }

  /** The slot's URL, `data?.photo_url || null`: a missing row, a null URL and an empty URL all read
      as absent. */
  function SlotUrl(row: Option<PhotoRow>): (url: Option<string>)
    ensures url.Some? <==> HasPhoto(row)
    ensures url.Some? ==> url.value == row.value.photoUrl.value && url.value != ""
  {
    if HasPhoto(row) then row.value.photoUrl else None
  }

  /** Slot `i` of the history: the month `i` months before today (`new Date(year, month - i, 1)`),
      with the URL found for it in the store. */
  function Slot(store: PhotoStore, user: string, todayYear: int, todayMonth: MonthIndex, i: int): MonthPhoto
  {
    var ym := DateMonth(todayYear, todayMonth - i);
    MonthPhoto(ym.month, ym.year, SlotUrl(Lookup(store, PhotoKey(user, ym.month, ym.year))))
  }

  /** The whole history, slot by slot. */
  function Window(store: PhotoStore, user: string, todayYear: int, todayMonth: MonthIndex): seq<MonthPhoto>
  {
    seq(WindowLength, i => Slot(store, user, todayYear, todayMonth, i))
  }

  /** Number of slots that carry a URL. */
  function PresentCount(photos: seq<MonthPhoto>): nat
  {
    if |photos| == 0 then 0
    else PresentCount(photos[..|photos| - 1]) + (if photos[|photos| - 1].photoUrl.Some? then 1 else 0)
  }

  /** The photo loop of `fetchProgressData`: twelve point lookups, most recent month first, counting
      the months whose lookup returned a truthy URL. */
  method FetchPhotos(store: PhotoStore, user: string, todayYear: int, todayMonth: MonthIndex)
    returns (photos: seq<MonthPhoto>, photoCount: nat)
    ensures photos == Window(store, user, todayYear, todayMonth)
    ensures |photos| == WindowLength
    ensures photoCount == PresentCount(photos)
    ensures photoCount <= WindowLength
  {
    photos := [];
    photoCount := 0;
    for i := 0 to WindowLength
      invariant |photos| == i
      invariant forall k :: 0 <= k < i ==> photos[k] == Slot(store, user, todayYear, todayMonth, k)
      invariant photoCount == PresentCount(photos) <= i
    {
      var date := DateMonth(todayYear, todayMonth - i);
      var month := date.month;
      var year := date.year;
      var data := Lookup(store, PhotoKey(user, month, year));
      photos := photos + [MonthPhoto(month, year, SlotUrl(data))];
      assert photos[i] == Slot(store, user, todayYear, todayMonth, i);
      assert photos[..|photos| - 1] == photos[..i];
      if HasPhoto(data) {
        photoCount := photoCount + 1;
      }
    }
  }

  /** `PresentCount` is the number of positions whose slot carries a URL. */
  lemma {:induction false} PresentCountIsCount(photos: seq<MonthPhoto>)
    ensures PresentCount(photos) == |set k | 0 <= k < |photos| && photos[k].photoUrl.Some?|
  {
    if |photos| > 0 {
      var n := |photos| - 1;
      var init := photos[..n];
      PresentCountIsCount(init);
      var before := set k | 0 <= k < |init| && init[k].photoUrl.Some?;
      var after := set k | 0 <= k < |photos| && photos[k].photoUrl.Some?;
      if photos[n].photoUrl.Some? {
        assert after == before + {n};
      } else {
        assert after == before;
      }
    }
  }

  /** Every slot holds a month in 1..12, so `monthNames[photo.month - 1]` is always defined. */
  lemma WindowMonthsValid(store: PhotoStore, user: string, todayYear: int, todayMonth: MonthIndex)
    ensures var w := Window(store, user, todayYear, todayMonth);
      forall i :: 0 <= i < |w| ==> 1 <= w[i].month <= 12 && 0 <= w[i].month - 1 < |MonthNames|
  {
  }

  /** Each slot after the first is the calendar month before the previous slot. */
  lemma WindowSteps(store: PhotoStore, user: string, todayYear: int, todayMonth: MonthIndex)
    ensures var w := Window(store, user, todayYear, todayMonth);
      forall i :: 0 <= i < |w| - 1 ==> CalendarMonth(w[i + 1]) == PreviousMonth(CalendarMonth(w[i]))
  {
    var w := Window(store, user, todayYear, todayMonth);
    forall i | 0 <= i < |w| - 1
      ensures CalendarMonth(w[i + 1]) == PreviousMonth(CalendarMonth(w[i]))
    {
      DateMonthStep(todayYear, todayMonth - i);
      assert CalendarMonth(w[i]) == DateMonth(todayYear, todayMonth - i);
      assert CalendarMonth(w[i + 1]) == DateMonth(todayYear, todayMonth - i - 1);
    }
  }

  /** No calendar month appears twice. */
  lemma WindowDistinct(store: PhotoStore, user: string, todayYear: int, todayMonth: MonthIndex)
    ensures var w := Window(store, user, todayYear, todayMonth);
      forall i, j :: 0 <= i < j < |w| ==> CalendarMonth(w[i]) != CalendarMonth(w[j])
  {
    var w := Window(store, user, todayYear, todayMonth);
    forall i, j | 0 <= i < j < |w|
      ensures CalendarMonth(w[i]) != CalendarMonth(w[j])
    {
      assert CalendarMonth(w[i]) == DateMonth(todayYear, todayMonth - i);
      assert CalendarMonth(w[j]) == DateMonth(todayYear, todayMonth - j);
      MonthNumberInjective(CalendarMonth(w[i]), CalendarMonth(w[j]));
    }
  }

  /** Shape of the history: twelve valid calendar months, the first one today's month as the `Date`
      constructor reads today's year, each later slot exactly one calendar month before the previous,
      and no month twice. */
  lemma WindowShape(store: PhotoStore, user: string, todayYear: int, todayMonth: MonthIndex)
    ensures var w := Window(store, user, todayYear, todayMonth);
      && |w| == WindowLength
      && (forall i :: 0 <= i < |w| ==> 1 <= w[i].month <= 12 && 0 <= w[i].month - 1 < |MonthNames|)
      && w[0].month == todayMonth + 1 && w[0].year == ConstructorYear(todayYear)
      && (forall i :: 0 <= i < |w| - 1 ==> CalendarMonth(w[i + 1]) == PreviousMonth(CalendarMonth(w[i])))
      && (forall i, j :: 0 <= i < j < |w| ==> CalendarMonth(w[i]) != CalendarMonth(w[j]))
  {
    DateMonthInRange(todayYear, todayMonth);
    WindowMonthsValid(store, user, todayYear, todayMonth);
    WindowSteps(store, user, todayYear, todayMonth);
    WindowDistinct(store, user, todayYear, todayMonth);
  }

  /** For every year a clock can report (none lies in 0..99), the first slot is today's month. */
  lemma WindowStartsToday(store: PhotoStore, user: string, todayYear: int, todayMonth: MonthIndex)
    requires todayYear < 0 || todayYear > 99
    ensures Window(store, user, todayYear, todayMonth)[0].month == todayMonth + 1
    ensures Window(store, user, todayYear, todayMonth)[0].year == todayYear
  {
    DateMonthInRange(todayYear, todayMonth);
  }

  /** A slot carries a URL exactly when the store holds a non-empty URL for that slot's month. */
  lemma WindowUrls(store: PhotoStore, user: string, todayYear: int, todayMonth: MonthIndex, i: int)
    requires 0 <= i < WindowLength
    ensures var p := Window(store, user, todayYear, todayMonth)[i];
      var key := PhotoKey(user, p.month, p.year);
      && (p.photoUrl.Some? <==> key in store && store[key].photoUrl.Some? && store[key].photoUrl.value != "")
      && (p.photoUrl.Some? ==> p.photoUrl == store[key].photoUrl)
  {
  }
}
