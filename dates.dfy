/** Calendar dates as the dashboard sees them (pandas timestamps at midnight),
    their order, and the month-start schedule of `pd.date_range(freq='MS')`. */
module Dates {

  datatype YearMonthDay = YMD(year: int, month: int, day: int)

  predicate IsLeapYear(y: int) {
    y % 4 == 0 && (y % 100 != 0 || y % 400 == 0)
  }

  function DaysInMonth(y: int, m: int): (n: int)
    requires 1 <= m <= 12
    ensures 28 <= n <= 31
    ensures m == 2 ==> (n == 29 <==> IsLeapYear(y))
  {
    if m == 2 then (if IsLeapYear(y) then 29 else 28)
    else if m == 4 || m == 6 || m == 9 || m == 11 then 30
    else 31
  }

  predicate IsValid(d: YearMonthDay) {
    1 <= d.month <= 12 && 1 <= d.day <= DaysInMonth(d.year, d.month)
  }

  /** A day of the proleptic Gregorian calendar. */
  type Date = d: YearMonthDay | IsValid(d) witness YMD(2010, 1, 1)

  /** Strict chronological order: lexicographic on (year, month, day). */
  predicate Before(a: Date, b: Date) {
    a.year < b.year ||
    (a.year == b.year && (a.month < b.month || (a.month == b.month && a.day < b.day)))
  }

  predicate AtOrBefore(a: Date, b: Date) {
    !Before(b, a)
  }

  lemma OrderIsStrictTotal(a: Date, b: Date, c: Date)
    ensures !Before(a, a)
    ensures Before(a, b) && Before(b, c) ==> Before(a, c)
    ensures a == b || Before(a, b) || Before(b, a)
    ensures AtOrBefore(a, b) <==> a == b || Before(a, b)
  {
  }

  lemma AtOrBeforeTransitive(a: Date, b: Date, c: Date)
    requires AtOrBefore(a, b) && AtOrBefore(b, c)
    ensures AtOrBefore(a, c)
  {
  }

  /** Months counted from year 0: January of year y is 12 * y. */
  function MonthIndex(d: Date): int {
    d.year * 12 + (d.month - 1)
  }

  /** The first day of the month with index k. */
  function FirstOfMonth(k: int): (d: Date)
    ensures d.day == 1 && MonthIndex(d) == k
  {
    YMD(k / 12, k % 12 + 1, 1)
  }

  lemma {:induction false} MonthIndexMonotone(a: Date, b: Date)
    ensures AtOrBefore(a, b) ==> MonthIndex(a) <= MonthIndex(b)
    ensures MonthIndex(a) < MonthIndex(b) ==> Before(a, b)
  {
    if a.year < b.year {
      assert a.year * 12 + 12 <= b.year * 12;
    } else if b.year < a.year {
      assert b.year * 12 + 12 <= a.year * 12;
    }
  }

  lemma {:induction false} FirstOfMonthOfIndex(d: Date)
    requires d.day == 1
    ensures FirstOfMonth(MonthIndex(d)) == d
  {
    var f := FirstOfMonth(MonthIndex(d));
    assert f.year * 12 + f.month == d.year * 12 + d.month;
  }

  /** A month start lies on or before a date exactly when its month index does not exceed the date's. */
  lemma {:induction false} FirstOfMonthAtOrBefore(k: int, d: Date)
    ensures AtOrBefore(FirstOfMonth(k), d) <==> k <= MonthIndex(d)
  {
    var f := FirstOfMonth(k);
    MonthIndexMonotone(f, d);
    MonthIndexMonotone(d, f);
  }

  /** A date lies on or before a month start exactly when it is earlier in month index or is that month start. */
  lemma {:induction false} AtOrBeforeFirstOfMonth(d: Date, k: int)
    ensures AtOrBefore(d, FirstOfMonth(k)) <==> MonthIndex(d) < k || d == FirstOfMonth(k)
  {
    var f := FirstOfMonth(k);
    MonthIndexMonotone(f, d);
    MonthIndexMonotone(d, f);
    if MonthIndex(d) == k {
      assert d.year * 12 + d.month == f.year * 12 + f.month;
    }
  }

  /** Index of the first month start on or after `start`. */
  function FirstScheduledMonth(start: Date): int {
    MonthIndex(start) + (if start.day == 1 then 0 else 1)
  }

  /** The first days of the n consecutive months from month index k. */
  function ConsecutiveMonthStarts(k: int, n: nat): (r: seq<Date>)
    ensures |r| == n
    ensures forall i :: 0 <= i < n ==> MonthIndex(r[i]) == k + i && r[i].day == 1
    decreases n
  {
    if n == 0 then [] else [FirstOfMonth(k)] + ConsecutiveMonthStarts(k + 1, n - 1)
  }

  /** The month-start dates d with start <= d <= end, in order (`pd.date_range(start, end, freq='MS')`). */
  function MonthStarts(start: Date, end: Date): (r: seq<Date>)
    ensures |r| == if MonthIndex(end) < FirstScheduledMonth(start) then 0
                   else MonthIndex(end) - FirstScheduledMonth(start) + 1
  {
    var k0 := FirstScheduledMonth(start);
    if MonthIndex(end) < k0 then []
    else
      ConsecutiveMonthStarts(k0, MonthIndex(end) - k0 + 1)
  }

  /** The schedule is strictly increasing and every entry is a month start inside [start, end]. */
  lemma {:induction false} MonthStartsSound(start: Date, end: Date)
    ensures forall i, j :: 0 <= i < j < |MonthStarts(start, end)| ==>
              Before(MonthStarts(start, end)[i], MonthStarts(start, end)[j])
    ensures forall d :: d in MonthStarts(start, end) ==>
              d.day == 1 && AtOrBefore(start, d) && AtOrBefore(d, end)
  {
    var r := MonthStarts(start, end);
    var k0 := FirstScheduledMonth(start);
    forall i, j | 0 <= i < j < |r| ensures Before(r[i], r[j]) {
      MonthIndexMonotone(r[i], r[j]);
    }
    forall d | d in r ensures d.day == 1 && AtOrBefore(start, d) && AtOrBefore(d, end) {
      var i :| 0 <= i < |r| && r[i] == d;
      MonthStartInRange(start, end, i);
    }
  }

  lemma MonthStartInRange(start: Date, end: Date, i: nat)
    requires i < |MonthStarts(start, end)|
    ensures var d := MonthStarts(start, end)[i];
            d.day == 1 && AtOrBefore(start, d) && AtOrBefore(d, end)
  {
    var d := MonthStarts(start, end)[i];
    assert MonthIndex(d) == FirstScheduledMonth(start) + i;
    MonthIndexMonotone(d, end);
    MonthIndexMonotone(end, d);
    MonthIndexMonotone(d, start);
    MonthIndexMonotone(start, d);
    if MonthIndex(d) == MonthIndex(end) {
      SameMonthIndex(d, end);
    }
    if MonthIndex(d) == MonthIndex(start) {
      SameMonthIndex(d, start);
    }
  }

  /** Every month start inside [start, end] is in the schedule. */
  lemma {:induction false} MonthStartsComplete(start: Date, end: Date, d: Date)
    requires d.day == 1 && AtOrBefore(start, d) && AtOrBefore(d, end)
    ensures d in MonthStarts(start, end)
  {
    var k0 := FirstScheduledMonth(start);
    var k := MonthIndex(d);
    MonthIndexMonotone(start, d);
    MonthIndexMonotone(d, end);
    if k == MonthIndex(start) {
      SameMonthIndex(start, d);
    }
    var r := MonthStarts(start, end);
    var e := r[k - k0];
    FirstOfMonthOfIndex(d);
    FirstOfMonthOfIndex(e);
  }

  lemma {:induction false} SameMonthIndex(a: Date, b: Date)
    requires MonthIndex(a) == MonthIndex(b)
    ensures a.year == b.year && a.month == b.month
  {
  }
}
