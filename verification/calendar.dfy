/** Calendar arithmetic of the JavaScript `Date` constructor, as the progress view uses it,
    and the table of three-letter month names it displays. */
module Calendar {

  /** The month labels of the progress view, indexed by `Date.getMonth()` (0 = January). */
  const MonthNames: seq<string> :=
    ["Jan", "Fev", "Mar", "Abr", "Mai", "Jun", "Jul", "Ago", "Set", "Out", "Nov", "Dez"]

  /** A month index as `Date.getMonth()` returns it. */
  type MonthIndex = m: int | 0 <= m < 12

  function MonthName(m: MonthIndex): string
  {
    MonthNames[m]
  }

  /** A calendar month as the view records it: `month` counts from 1, as `getMonth() + 1`. */
  datatype YearMonth = YearMonth(month: int, year: int)

  predicate Valid(ym: YearMonth)
  {
    1 <= ym.month <= 12
  }

  /** Months elapsed since January of year 0; the ordering the `Date` constructor works in. */
  function MonthNumber(ym: YearMonth): int
  {
    ym.year * 12 + (ym.month - 1)
  }

  /** The calendar month with a given month number (inverse of `MonthNumber`). */
  function FromMonthNumber(n: int): (ym: YearMonth)
    ensures Valid(ym)
    ensures MonthNumber(ym) == n
  {
    YearMonth(n % 12 + 1, n / 12)
  }

  lemma MonthNumberRoundTrip(ym: YearMonth)
    requires Valid(ym)
    ensures FromMonthNumber(MonthNumber(ym)) == ym
  {
    var n := MonthNumber(ym);
    assert n == ym.year * 12 + (ym.month - 1) && 0 <= ym.month - 1 < 12;
    assert n / 12 == ym.year;
  }

  /** Two valid calendar months are equal exactly when their month numbers are. */
  lemma MonthNumberInjective(a: YearMonth, b: YearMonth)
    requires Valid(a) && Valid(b)
    ensures MonthNumber(a) == MonthNumber(b) <==> a == b
  {
    if MonthNumber(a) == MonthNumber(b) {
      MonthNumberRoundTrip(a);
      MonthNumberRoundTrip(b);
    }
  }

  /** The month before `ym` on the calendar: January steps back to December of the previous year. */
  function PreviousMonth(ym: YearMonth): YearMonth
  {
    if ym.month == 1 then YearMonth(12, ym.year - 1) else YearMonth(ym.month - 1, ym.year)
  }

  lemma PreviousMonthNumber(ym: YearMonth)
    requires Valid(ym)
    ensures Valid(PreviousMonth(ym))
    ensures MonthNumber(PreviousMonth(ym)) == MonthNumber(ym) - 1
  {
  }

  /** The `Date` constructor reads a year argument 0..99 as 1900..1999. */
  function ConstructorYear(year: int): (y: int)
    ensures year < 0 || year > 99 ==> y == year
    ensures 0 <= year <= 99 ==> y == 1900 + year
  {
    if 0 <= year <= 99 then 1900 + year else year
  }

  /** `getMonth() + 1` and `getFullYear()` of `new Date(year, monthIndex, 1)`: a month index outside
      0..11 carries into the year, in either direction. */
  function DateMonth(year: int, monthIndex: int): (ym: YearMonth)
    ensures Valid(ym)
    ensures MonthNumber(ym) == ConstructorYear(year) * 12 + monthIndex
  {
    FromMonthNumber(ConstructorYear(year) * 12 + monthIndex)
  }

  /** Within 0..11 the constructor takes the month index as given. */
  lemma DateMonthInRange(year: int, monthIndex: MonthIndex)
    ensures DateMonth(year, monthIndex) == YearMonth(monthIndex + 1, ConstructorYear(year))
  {
    MonthNumberRoundTrip(YearMonth(monthIndex + 1, ConstructorYear(year)));
  }

  /** One index lower is one calendar month earlier, with December/January rollover. */
  lemma DateMonthStep(year: int, monthIndex: int)
    ensures DateMonth(year, monthIndex - 1) == PreviousMonth(DateMonth(year, monthIndex))
  {
    var ym := DateMonth(year, monthIndex);
    PreviousMonthNumber(ym);
    MonthNumberInjective(DateMonth(year, monthIndex - 1), PreviousMonth(ym));
  }

  /** No element occurs twice. */
  predicate Distinct(s: seq<string>)
  {
    forall i, j :: 0 <= i < j < |s| ==> s[i] != s[j]
  }

  /** The twelve month labels are pairwise different. */
  lemma MonthNamesDistinct()
    ensures Distinct(MonthNames)
  {
  }

  /** The month labels as a set. */
  const MonthNameSet: set<string> := set i | 0 <= i < |MonthNames| :: MonthNames[i]

  /** A sequence of pairwise different elements has as many distinct elements as positions. */
  lemma {:induction false} DistinctElementCount(s: seq<string>)
    requires Distinct(s)
    ensures |set i | 0 <= i < |s| :: s[i]| == |s|
  {
    if |s| > 0 {
      var init := s[..|s| - 1];
      DistinctElementCount(init);
      var before := set i | 0 <= i < |init| :: init[i];
      var after := set i | 0 <= i < |s| :: s[i];
      assert after == before + {s[|s| - 1]};
      assert s[|s| - 1] !in before;
    }
  }

  /** A sequence without repeats drawn from a set is no longer than the set is large. */
  lemma DistinctBound(s: seq<string>, universe: set<string>)
    requires Distinct(s)
    requires forall i :: 0 <= i < |s| ==> s[i] in universe
    ensures |s| <= |universe|
  {
    DistinctElementCount(s);
    SubsetSize(set i | 0 <= i < |s| :: s[i], universe);
  }

  /** A subset is no larger than its superset. */
  lemma {:induction false} SubsetSize(a: set<string>, b: set<string>)
    requires a <= b
    ensures |a| <= |b|
    decreases |a|
  {
    if a != {} {
      var x :| x in a;
      SubsetSize(a - {x}, b - {x});
    }
  }

  /** Every label is in the set, and the set has twelve members. */
  lemma MonthNameSetSize()
    ensures forall i :: 0 <= i < |MonthNames| ==> MonthNames[i] in MonthNameSet
    ensures |MonthNameSet| == 12
  {
    MonthNamesDistinct();
    DistinctElementCount(MonthNames);
    assert MonthNameSet == set i | 0 <= i < |MonthNames| :: MonthNames[i];
    forall i | 0 <= i < |MonthNames|
      ensures MonthNames[i] in MonthNameSet
    {
    }
  }
}
