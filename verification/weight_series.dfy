/** The weight chart of the progress view: weight records grouped by the three-letter name of
    their month, in the order the names are first met, each group shown as its mean weight. */
module WeightSeries {
  import opened Wrappers
  import opened Calendar

  /** A `weight_records` row as the view reads it: the year and month (`getMonth()`) of its date,
      and its weight as `parseFloat` reads it, `None` standing for NaN (a null or non-numeric
      column). */
  datatype WeightRecord = WeightRecord(year: int, month: MonthIndex, weight: Option<real>)

  /** The running total of one month name (`monthlyData[monthKey]`). */
  datatype Bucket = Bucket(name: string, sum: Option<real>, count: nat)

  /** A point of the chart. */
  datatype Point = Point(month: string, weight: Option<real>)

  /** JavaScript addition on numbers: NaN absorbs everything added to it. */
  function Plus(a: Option<real>, b: Option<real>): (r: Option<real>)
    ensures r.Some? <==> a.Some? && b.Some?
    ensures r.Some? ==> r.value == a.value + b.value
  {
    if a.Some? && b.Some? then Some(a.value + b.value) else None
  }

  /** JavaScript division by a positive count: NaN stays NaN. */
  function Mean(sum: Option<real>, count: nat): (r: Option<real>)
    requires count > 0
    ensures r.Some? <==> sum.Some?
    ensures r.Some? ==> r.value * (count as real) == sum.value
  {
    if sum.Some? then Some(sum.value / (count as real)) else None
  }

  /** The grouping key: the month's name only, so the year plays no part. */
  function Key(r: WeightRecord): string
  {
    MonthName(r.month)
  }

  function Keys(records: seq<WeightRecord>): (keys: seq<string>)
    ensures |keys| == |records|
    ensures forall i :: 0 <= i < |records| ==> keys[i] == Key(records[i])
  {
    seq(|records|, i requires 0 <= i < |records| => Key(records[i]))
  }

  /** The keys of all records are those of all but the last, then the last one's. */
  lemma KeysSnoc(records: seq<WeightRecord>)
    requires |records| > 0
    ensures Keys(records) == Keys(records[..|records| - 1]) + [Key(records[|records| - 1])]
  {
  }

  function Names(buckets: seq<Bucket>): (names: seq<string>)
    ensures |names| == |buckets|
    ensures forall i :: 0 <= i < |buckets| ==> names[i] == buckets[i].name
  {
    seq(|buckets|, i requires 0 <= i < |buckets| => buckets[i].name)
  }

  /** Total number of records the buckets account for. */
  function TotalCount(buckets: seq<Bucket>): nat
  {
    if |buckets| == 0 then 0 else buckets[0].count + TotalCount(buckets[1..])
  }

  /** Position of `name` among the bucket names, or -1 (the lookup `monthlyData[monthKey]`). */
  function IndexOf(names: seq<string>, name: string): (i: int)
    ensures -1 <= i < |names|
    ensures i >= 0 ==> names[i] == name
    ensures i < 0 ==> name !in names
  {
    if |names| == 0 then -1
    else if names[|names| - 1] == name then |names| - 1
    else IndexOf(names[..|names| - 1], name)
  }

  /** One record added to the buckets (the body of the `forEach`): the bucket with its month name
      gains its weight and one to its count, or a new bucket is opened at the end. */
  function AddRecord(buckets: seq<Bucket>, name: string, weight: Option<real>): (r: seq<Bucket>)
    requires Distinct(Names(buckets))
    ensures Distinct(Names(r))
    ensures name in Names(r)
    ensures name in Names(buckets) ==> |r| == |buckets|
    ensures name !in Names(buckets) ==> |r| == |buckets| + 1 && r[|buckets|] == Bucket(name, Plus(Some(0.0), weight), 1)
    ensures forall i :: 0 <= i < |buckets| && buckets[i].name != name ==> r[i] == buckets[i]
    ensures forall i :: 0 <= i < |buckets| && buckets[i].name == name ==>
      r[i] == Bucket(name, Plus(buckets[i].sum, weight), buckets[i].count + 1)
    ensures TotalCount(r) == TotalCount(buckets) + 1
  {
    var i := IndexOf(Names(buckets), name);
    if i < 0 then
      var b := Bucket(name, Plus(Some(0.0), weight), 1);
      var r := buckets + [b];
      assert Names(r)[|buckets|] == name;
      TotalCountAppend(buckets, b);
      r
    else
      var b := Bucket(name, Plus(buckets[i].sum, weight), buckets[i].count + 1);
      var r := buckets[i := b];
      assert Names(r) == Names(buckets);
      TotalCountReplace(buckets, i, b);
      r
  }

  lemma {:induction false} TotalCountAppend(buckets: seq<Bucket>, b: Bucket)
    ensures TotalCount(buckets + [b]) == TotalCount(buckets) + b.count
  {
    if |buckets| > 0 {
      assert (buckets + [b])[1..] == buckets[1..] + [b];
      TotalCountAppend(buckets[1..], b);
    }
  }

  lemma {:induction false} TotalCountReplace(buckets: seq<Bucket>, i: nat, b: Bucket)
    requires i < |buckets|
    ensures TotalCount(buckets[i := b]) == TotalCount(buckets) - buckets[i].count + b.count
  {
    if i > 0 {
      assert buckets[i := b][1..] == buckets[1..][i - 1 := b];
      TotalCountReplace(buckets[1..], i - 1, b);
    }
  }

  /** The buckets after the `forEach` over all records, in record order. */
  function Group(records: seq<WeightRecord>): (r: seq<Bucket>)
    ensures Distinct(Names(r))
  {
    if |records| == 0 then []
    else
      var last := records[|records| - 1];
      AddRecord(Group(records[..|records| - 1]), Key(last), last.weight)
  }

  /** Number of records whose month has the given name. */
  function CountNamed(records: seq<WeightRecord>, name: string): nat
  {
    if |records| == 0 then 0
    else CountNamed(records[..|records| - 1], name) + (if Key(records[|records| - 1]) == name then 1 else 0)
  }

  /** Sum of the weights of the records whose month has the given name. */
  function SumNamed(records: seq<WeightRecord>, name: string): Option<real>
  {
    if |records| == 0 then Some(0.0)
    else
      var last := records[|records| - 1];
      var sum := SumNamed(records[..|records| - 1], name);
      if Key(last) == name then Plus(sum, last.weight) else sum
  }

  /** Position of the first record whose month has the given name. */
  function FirstIndex(keys: seq<string>, name: string): (i: nat)
    requires name in keys
    ensures i < |keys| && keys[i] == name
    ensures forall j :: 0 <= j < i ==> keys[j] != name
  {
    if keys[0] == name then 0 else 1 + FirstIndex(keys[1..], name)
  }

  lemma FirstIndexExtend(keys: seq<string>, k: string, name: string)
    requires name in keys + [k]
    ensures name in keys ==> FirstIndex(keys + [k], name) == FirstIndex(keys, name)
    ensures name !in keys ==> FirstIndex(keys + [k], name) == |keys|
  {
    var i := FirstIndex(keys + [k], name);
    if name in keys {
      var j := FirstIndex(keys, name);
      assert (keys + [k])[j] == name;
    }
  }

  /** A name no record bears has count and sum zero. */
  lemma {:induction false} AbsentNameIsEmpty(records: seq<WeightRecord>, name: string)
    requires name !in Keys(records)
    ensures CountNamed(records, name) == 0 && SumNamed(records, name) == Some(0.0)
  {
    if |records| > 0 {
      var init := records[..|records| - 1];
      assert Keys(init) == Keys(records)[..|records| - 1];
      AbsentNameIsEmpty(init, name);
    }
  }

  /** The buckets hold exactly the month names of the records. */
  lemma {:induction false} GroupNames(records: seq<WeightRecord>)
    ensures forall n :: n in Names(Group(records)) <==> n in Keys(records)
  {
    if |records| > 0 {
      var init := records[..|records| - 1];
      var k := Key(records[|records| - 1]);
      var p := Group(init);
      var r := Group(records);
      GroupNames(init);
      KeysSnoc(records);
      forall n
        ensures n in Names(r) <==> n in Keys(records)
      {
        if n in Names(r) && n != k {
          var i :| 0 <= i < |r| && Names(r)[i] == n;
          assert i < |p| && r[i] == p[i] && Names(p)[i] == n;
        }
        if n in Names(p) {
          var i :| 0 <= i < |p| && Names(p)[i] == n;
          assert Names(r)[i] == n;
        }
      }
    }
  }

  /** Each bucket's count and sum are those of all records with its name, whatever their year, and
      every count is positive. */
  lemma {:induction false} GroupTotals(records: seq<WeightRecord>)
    ensures forall i :: 0 <= i < |Group(records)| ==>
      && Group(records)[i].count == CountNamed(records, Group(records)[i].name)
      && Group(records)[i].sum == SumNamed(records, Group(records)[i].name)
      && Group(records)[i].count > 0
  {
    if |records| > 0 {
      var init := records[..|records| - 1];
      var last := records[|records| - 1];
      var k := Key(last);
      var p := Group(init);
      var r := Group(records);
      GroupTotals(init);
      forall i | 0 <= i < |r|
        ensures r[i].count == CountNamed(records, r[i].name)
        ensures r[i].sum == SumNamed(records, r[i].name)
        ensures r[i].count > 0
      {
        var n := r[i].name;
        assert CountNamed(records, n) == CountNamed(init, n) + (if k == n then 1 else 0);
        assert SumNamed(records, n) == if k == n then Plus(SumNamed(init, n), last.weight) else SumNamed(init, n);
        if i == |p| {
          GroupNames(init);
          assert k !in Names(p);
          AbsentNameIsEmpty(init, k);
        } else {
          assert n == p[i].name;
        }
      }
    }
  }

  /** The buckets hold exactly the month names of the records, each once; each bucket's count and
      sum are those of all records with its name, whatever their year; and every count is positive. */
  lemma GroupContents(records: seq<WeightRecord>)
    ensures forall n :: n in Names(Group(records)) <==> n in Keys(records)
    ensures forall i :: 0 <= i < |Group(records)| ==>
      && Group(records)[i].count == CountNamed(records, Group(records)[i].name)
      && Group(records)[i].sum == SumNamed(records, Group(records)[i].name)
      && Group(records)[i].count > 0
  {
    GroupNames(records);
    GroupTotals(records);
  }

  /** The buckets come in the order their names are first met in `keys`. */
  predicate InFirstEncounterOrder(keys: seq<string>, buckets: seq<Bucket>)
  {
    forall i, j :: 0 <= i < j < |buckets| ==>
      && buckets[i].name in keys
      && buckets[j].name in keys
      && FirstIndex(keys, buckets[i].name) < FirstIndex(keys, buckets[j].name)
  }

  /** Adding the record with key `k` keeps the buckets in first-encounter order of the keys so far. */
  lemma AddRecordKeepsOrder(keys: seq<string>, p: seq<Bucket>, k: string, weight: Option<real>)
    requires Distinct(Names(p))
    requires forall n :: n in Names(p) <==> n in keys
    requires InFirstEncounterOrder(keys, p)
    ensures InFirstEncounterOrder(keys + [k], AddRecord(p, k, weight))
  {
    var r := AddRecord(p, k, weight);
    forall i, j | 0 <= i < j < |r|
      ensures r[i].name in keys + [k] && r[j].name in keys + [k]
      ensures FirstIndex(keys + [k], r[i].name) < FirstIndex(keys + [k], r[j].name)
    {
      assert r[i].name == p[i].name && Names(p)[i] == p[i].name;
      assert r[i].name in keys;
      if j < |p| {
        assert r[j].name == p[j].name && Names(p)[j] == p[j].name;
        assert r[j].name in keys;
        FirstIndexExtend(keys, k, r[i].name);
        FirstIndexExtend(keys, k, r[j].name);
      } else {
        assert r[j].name == k && k !in keys;
        FirstIndexExtend(keys, k, r[i].name);
        FirstIndexExtend(keys, k, k);
      }
    }
  }

  /** Buckets appear in the order their month names are first met among the records. */
  lemma {:induction false} GroupOrder(records: seq<WeightRecord>)
    ensures InFirstEncounterOrder(Keys(records), Group(records))
  {
    if |records| > 0 {
      var init := records[..|records| - 1];
      var last := records[|records| - 1];
      GroupOrder(init);
      GroupNames(init);
      KeysSnoc(records);
      AddRecordKeepsOrder(Keys(init), Group(init), Key(last), last.weight);
      assert Group(records) == AddRecord(Group(init), Key(last), last.weight);
    }
  }

  /** Every record is counted in exactly one bucket. */
  lemma {:induction false} GroupCountsAllRecords(records: seq<WeightRecord>)
    ensures TotalCount(Group(records)) == |records|
  {
    if |records| > 0 {
      var init := records[..|records| - 1];
      var last := records[|records| - 1];
      GroupCountsAllRecords(init);
    }
  }

  /** There are never more buckets than month names. */
  lemma GroupAtMostTwelve(records: seq<WeightRecord>)
    ensures |Group(records)| <= 12
  {
    var names := Names(Group(records));
    GroupContents(records);
    MonthNameSetSize();
    forall i | 0 <= i < |names|
      ensures names[i] in MonthNameSet
    {
      assert names[i] in Keys(records);
      var k :| 0 <= k < |records| && Keys(records)[k] == names[i];
    }
    DistinctBound(names, MonthNameSet);
  }

  /** One chart point per bucket: its name and its mean weight (`data.weight / data.count`). */
  function Points(buckets: seq<Bucket>): (r: seq<Point>)
    requires forall i :: 0 <= i < |buckets| ==> buckets[i].count > 0
    ensures |r| == |buckets|
    ensures forall i :: 0 <= i < |r| ==>
      && r[i].month == buckets[i].name
      && (r[i].weight.Some? <==> buckets[i].sum.Some?)
      && (r[i].weight.Some? ==> r[i].weight.value * (buckets[i].count as real) == buckets[i].sum.value)
  {
    seq(|buckets|, i requires 0 <= i < |buckets| => Point(buckets[i].name, Mean(buckets[i].sum, buckets[i].count)))
  }

  /** The chart computed from a list of records: one point per month name, `[]` for no records. */
  function Series(records: seq<WeightRecord>): (r: seq<Point>)
    ensures |r| <= 12
  {
    GroupContents(records);
    GroupAtMostTwelve(records);
    Points(Group(records))
  }

  /** Each point is the mean weight of all records bearing its month name, or NaN when one of
      them is NaN. */
  lemma SeriesIsMonthlyMean(records: seq<WeightRecord>)
    ensures forall i :: 0 <= i < |Series(records)| ==> CountNamed(records, Series(records)[i].month) > 0
    ensures forall i :: 0 <= i < |Series(records)| ==>
      (Series(records)[i].weight.Some? <==> SumNamed(records, Series(records)[i].month).Some?)
    ensures forall i :: 0 <= i < |Series(records)| && Series(records)[i].weight.Some? ==>
      Series(records)[i].weight.value ==
        SumNamed(records, Series(records)[i].month).value / (CountNamed(records, Series(records)[i].month) as real)
  {
    GroupContents(records);
  }

  /** A month's sum is NaN exactly when one of its records has a NaN weight. */
  lemma {:induction false} NaNPoisonsMonth(records: seq<WeightRecord>, name: string)
    ensures SumNamed(records, name).None? <==>
      exists k :: 0 <= k < |records| && Key(records[k]) == name && records[k].weight.None?
  {
    if |records| > 0 {
      var init := records[..|records| - 1];
      var last := records[|records| - 1];
      NaNPoisonsMonth(init, name);
      if exists k :: 0 <= k < |init| && Key(init[k]) == name && init[k].weight.None? {
        var k :| 0 <= k < |init| && Key(init[k]) == name && init[k].weight.None?;
        assert records[k] == init[k];
      }
      if exists k :: 0 <= k < |records| && Key(records[k]) == name && records[k].weight.None? {
        var k :| 0 <= k < |records| && Key(records[k]) == name && records[k].weight.None?;
        if k < |init| {
          assert init[k] == records[k];
        }
      }
    }
  }

  /** After a fetch: the chart is replaced only when records came back; a failed fetch or an empty
      list leaves the previous chart in place. */
  function UpdateSeries(previous: seq<Point>, fetched: Option<seq<WeightRecord>>): (r: seq<Point>)
    ensures fetched.None? || |fetched.value| == 0 ==> r == previous
    ensures fetched.Some? && |fetched.value| > 0 ==> 1 <= |r| <= 12
    ensures fetched.Some? && |fetched.value| > 0 ==> r == Series(fetched.value)
  {
    if fetched.Some? && |fetched.value| > 0 then
      assert Key(fetched.value[0]) in Keys(fetched.value);
      GroupContents(fetched.value);
      Series(fetched.value)
    else
      previous
  }

  /** Two records whose months share a name, whatever their years, make one point: their mean, or
      NaN when either weight is NaN. */
  lemma SameMonthNameAcrossYearsMerges(a: WeightRecord, b: WeightRecord)
    requires a.month == b.month
    ensures |Series([a, b])| == 1
    ensures Series([a, b])[0].month == MonthName(a.month)
    ensures Series([a, b])[0].weight ==
      if a.weight.Some? && b.weight.Some? then Some((a.weight.value + b.weight.value) / 2.0) else None
  {
    var records := [a, b];
    var name := MonthName(a.month);
    assert records[..1] == [a];
    assert [a][..0] == [];
    assert Key(a) == name && Key(b) == name;
    var first := Group([a]);
    assert first == AddRecord(Group([]), name, a.weight);
    assert first == [Bucket(name, Plus(Some(0.0), a.weight), 1)];
    assert Names(first)[0] == name;
    var both := Group(records);
    assert both == AddRecord(first, name, b.weight);
    assert both == [Bucket(name, Plus(Plus(Some(0.0), a.weight), b.weight), 2)];
    assert Series(records) == Points(both);
  }
}
