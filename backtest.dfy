/** The backtest page: a lump sum held from the first to the last trading day, and a
    fixed amount invested at every month start of [start, end]. Amounts are exact reals;
    the figures are those before the page rounds them for display. */
module Backtest {
  import opened Dates
  import opened Results
  import opened Series

  // ---------------------------------------------------------------------------
  // Lump sum

  /** `start_money * Close.iloc[-1] / Close.iloc[0]`; an amount of 0 shows nothing, and a
      series without rows has no first or last close. */
  function LumpSum(data: seq<Quote>, startMoney: real): (r: Result<real>)
    requires PositiveCloses(data)
    ensures r.Err? <==> startMoney == 0.0 || data == []
    ensures r.Err? ==> r.error == (if startMoney == 0.0 then NoAmount else EmptySeries)
    ensures r.Ok? ==> r.value * data[0].close == startMoney * data[|data| - 1].close
  {
    if startMoney == 0.0 then Err(NoAmount)
    else if data == [] then Err(EmptySeries)
    else
      assert data[0] in data;
      Ok(startMoney * data[|data| - 1].close / data[0].close)
  }

  /** When the last close equals the first, the final amount is the amount invested. */
  lemma LumpSumBreakEven(data: seq<Quote>, startMoney: real)
    requires PositiveCloses(data) && data != [] && startMoney != 0.0
    requires data[0].close == data[|data| - 1].close
    ensures LumpSum(data, startMoney) == Ok(startMoney)
  {
    assert data[0] in data;
    assert startMoney * data[0].close / data[0].close == startMoney;
  }

  /** A positive amount grows exactly when the last close is above the first. */
  lemma LumpSumGain(data: seq<Quote>, startMoney: real)
    requires PositiveCloses(data) && data != [] && startMoney > 0.0
    ensures LumpSum(data, startMoney).Ok?
    ensures LumpSum(data, startMoney).value > startMoney <==> data[|data| - 1].close > data[0].close
  {
    var first, last := data[0].close, data[|data| - 1].close;
    assert data[0] in data;
    var v := LumpSum(data, startMoney).value;
    assert v * first == startMoney * last;
    if last > first {
      assert v * first > startMoney * first;
    } else {
      assert v * first <= startMoney * first;
    }
  }

  // ---------------------------------------------------------------------------
  // Running totals

  /** Sum of a list of reals. */
  function Sum(xs: seq<real>): real
    decreases |xs|
  {
    if xs == [] then 0.0 else xs[0] + Sum(xs[1..])
  }

  /** Running totals of xs, continuing from acc. */
  function RunningTotals(acc: real, xs: seq<real>): (r: seq<real>)
    ensures |r| == |xs|
    decreases |xs|
  {
    if xs == [] then [] else [acc + xs[0]] + RunningTotals(acc + xs[0], xs[1..])
  }

  /** `Series.cumsum()` */
  function CumSum(xs: seq<real>): (r: seq<real>)
    ensures |r| == |xs|
  {
    RunningTotals(0.0, xs)
  }

  lemma {:induction false} RunningTotalsArePrefixSums(acc: real, xs: seq<real>, i: nat)
    requires i < |xs|
    ensures RunningTotals(acc, xs)[i] == acc + Sum(xs[..i + 1])
    decreases |xs|
  {
    if i > 0 {
      RunningTotalsArePrefixSums(acc + xs[0], xs[1..], i - 1);
      assert xs[..i + 1][1..] == xs[1..][..i];
    }
  }

  /** Entry i of the cumulative sum is the sum of the first i + 1 entries. */
  lemma CumSumIsPrefixSum(xs: seq<real>, i: nat)
    requires i < |xs|
    ensures CumSum(xs)[i] == Sum(xs[..i + 1])
  {
    RunningTotalsArePrefixSums(0.0, xs, i);
  }

  lemma {:induction false} SumAppend(xs: seq<real>, x: real)
    ensures Sum(xs + [x]) == Sum(xs) + x
    decreases |xs|
  {
    if xs != [] {
      SumAppend(xs[1..], x);
      assert (xs + [x])[1..] == xs[1..] + [x];
    }
  }

  /** Each running total is the previous one plus the new entry. */
  lemma CumSumStep(xs: seq<real>, i: nat)
    requires 0 < i < |xs|
    ensures CumSum(xs)[i] == CumSum(xs)[i - 1] + xs[i]
  {
    CumSumIsPrefixSum(xs, i);
    CumSumIsPrefixSum(xs, i - 1);
    assert xs[..i + 1] == xs[..i] + [xs[i]];
    SumAppend(xs[..i], xs[i]);
  }

  /** n copies of m. */
  function Repeat(m: real, n: nat): (r: seq<real>)
    ensures |r| == n
    ensures forall i :: 0 <= i < n ==> r[i] == m
  {
    if n == 0 then [] else [m] + Repeat(m, n - 1)
  }

  lemma {:induction false} SumOfConstant(n: nat, m: real)
    ensures Sum(Repeat(m, n)) == n as real * m
    decreases n
  {
    if n > 0 {
      SumOfConstant(n - 1, m);
      assert Repeat(m, n)[1..] == Repeat(m, n - 1);
      OneMore((n - 1) as real, m);
    }
  }

  lemma OneMore(k: real, m: real)
    ensures m + k * m == (k + 1.0) * m
  {
  }

  /** Paying m every month, the total paid after month i is (i + 1) * m. */
  lemma CumSumOfConstant(n: nat, m: real, i: nat)
    requires i < n
    ensures CumSum(Repeat(m, n))[i] == (i + 1) as real * m
  {
    CumSumIsPrefixSum(Repeat(m, n), i);
    assert Repeat(m, n)[..i + 1] == Repeat(m, i + 1);
    SumOfConstant(i + 1, m);
  }

  // ---------------------------------------------------------------------------
  // Recurring investment

  /** One row of the monthly table. */
  datatype Row = Row(date: Date, investment: real, totalInvestment: real, close: real,
                     units: real, totalUnits: real, totalValue: real, roi: real)

  /** The forward-filled close for day d, 0 when no trading day precedes it. */
  function FilledClose(data: seq<Quote>, d: Date): real {
    match ForwardFill(data, d)
    case Some(c) => c
    case None => 0.0
  }

  lemma ForwardFillPositive(data: seq<Quote>, d: Date)
    requires PositiveCloses(data) && ForwardFill(data, d).Some?
    ensures FilledClose(data, d) > 0.0
  {
    var k := LastAtOrBefore(data, d).value;
    assert data[k] in data;
  }

  /** Index of the first date that has a forward-filled close, |dates| when none has. */
  function FirstPriced(data: seq<Quote>, dates: seq<Date>): (k: nat)
    ensures k <= |dates|
    ensures forall i :: 0 <= i < k ==> ForwardFill(data, dates[i]).None?
    ensures k < |dates| ==> ForwardFill(data, dates[k]).Some?
    decreases |dates|
  {
    if dates == [] || ForwardFill(data, dates[0]).Some? then 0
    else 1 + FirstPriced(data, dates[1..])
  }

  /** The month starts of [start, end] from the first one that has a price on: the months
      the plan can buy in. */
  function PricedMonthStarts(data: seq<Quote>, start: Date, end: Date): seq<Date> {
    var all := MonthStarts(start, end);
    all[FirstPriced(data, all)..]
  }

  /** Every month the plan buys in has a price, and it is positive. */
  lemma ScheduleCloses(data: seq<Quote>, start: Date, end: Date)
    requires IsPriceSeries(data)
    ensures forall i :: 0 <= i < |PricedMonthStarts(data, start, end)| ==>
              ForwardFill(data, PricedMonthStarts(data, start, end)[i]).Some? &&
              FilledClose(data, PricedMonthStarts(data, start, end)[i]) > 0.0
  {
    var all := MonthStarts(start, end);
    var k := FirstPriced(data, all);
    var dates := PricedMonthStarts(data, start, end);
    MonthStartsSound(start, end);
    forall i | 0 <= i < |dates|
      ensures ForwardFill(data, dates[i]).Some? && FilledClose(data, dates[i]) > 0.0
    {
      assert dates[i] == all[k + i];
      if i > 0 {
        OrderIsStrictTotal(all[k], all[k + i], all[k]);
      }
      ForwardFillPersists(data, all[k], all[k + i]);
      ForwardFillPositive(data, dates[i]);
    }
  }

  /** Units bought each month: the month's amount over the month's close. */
  function UnitsBought(monthMoney: real, closes: seq<real>): (r: seq<real>)
    requires forall i :: 0 <= i < |closes| ==> closes[i] > 0.0
    ensures |r| == |closes|
  {
    seq(|closes|, i requires 0 <= i < |closes| => monthMoney / closes[i])
  }

  /** `(Total Value / Total Investment - 1) * 100`: the return in percent. */
  function Roi(value: real, invested: real): real
    requires invested != 0.0
  {
    (value / invested - 1.0) * 100.0
  }

  /** The columns of the monthly table for the given dates and closes: the amount paid,
      its running total, the close, the units bought and held, their value at the close and
      the return in percent (`Total Value / Total Investment - 1`, times 100). */
  function Table(dates: seq<Date>, closes: seq<real>, monthMoney: real): (rows: seq<Row>)
    requires |closes| == |dates| && monthMoney != 0.0
    requires forall i :: 0 <= i < |closes| ==> closes[i] > 0.0
    ensures |rows| == |dates|
    ensures forall i :: 0 <= i < |rows| ==> rows[i].date == dates[i] && rows[i].close == closes[i]
  {
    var n := |dates|;
    var totalInvestments := CumSum(Repeat(monthMoney, n));
    assert forall i :: 0 <= i < n ==> totalInvestments[i] != 0.0 by {
      forall i | 0 <= i < n ensures totalInvestments[i] != 0.0 {
        CumSumOfConstant(n, monthMoney, i);
      }
    }
    var units := UnitsBought(monthMoney, closes);
    var totalUnits := CumSum(units);
    seq(n, i requires 0 <= i < n =>
      Row(dates[i], monthMoney, totalInvestments[i], closes[i], units[i], totalUnits[i],
          totalUnits[i] * closes[i], Roi(totalUnits[i] * closes[i], totalInvestments[i])))
  }

  /** Every month invests monthMoney, so after month i the total invested is (i + 1) * monthMoney. */
  lemma TableInvestment(dates: seq<Date>, closes: seq<real>, monthMoney: real, i: nat)
    requires |closes| == |dates| && monthMoney != 0.0
    requires forall k :: 0 <= k < |closes| ==> closes[k] > 0.0
    requires i < |dates|
    ensures Table(dates, closes, monthMoney)[i].investment == monthMoney
    ensures Table(dates, closes, monthMoney)[i].totalInvestment == (i + 1) as real * monthMoney
  {
    CumSumOfConstant(|dates|, monthMoney, i);
  }

  /** Units bought in month i are monthMoney / close, and the units held after month i are
      the sum of the units bought in months 0..i. */
  lemma TableUnits(dates: seq<Date>, closes: seq<real>, monthMoney: real, i: nat)
    requires |closes| == |dates| && monthMoney != 0.0
    requires forall k :: 0 <= k < |closes| ==> closes[k] > 0.0
    requires i < |dates|
    ensures var rows := Table(dates, closes, monthMoney);
            rows[i].units == monthMoney / closes[i] &&
            rows[i].totalUnits == Sum(UnitsBought(monthMoney, closes)[..i + 1])
  {
    CumSumIsPrefixSum(UnitsBought(monthMoney, closes), i);
  }

  /** Row by row the totals grow by the month's amount and the month's units. */
  lemma TableStep(dates: seq<Date>, closes: seq<real>, monthMoney: real, i: nat)
    requires |closes| == |dates| && monthMoney != 0.0
    requires forall k :: 0 <= k < |closes| ==> closes[k] > 0.0
    requires 0 < i < |dates|
    ensures var rows := Table(dates, closes, monthMoney);
            rows[i].totalInvestment == rows[i - 1].totalInvestment + monthMoney &&
            rows[i].totalUnits == rows[i - 1].totalUnits + rows[i].units
  {
    CumSumStep(UnitsBought(monthMoney, closes), i);
    CumSumStep(Repeat(monthMoney, |dates|), i);
  }

  /** The holding is marked at the month's close, and the return relates it to the amount
      invested so far: roi percent of the invested total is the gain. */
  lemma TableValuation(dates: seq<Date>, closes: seq<real>, monthMoney: real, i: nat)
    requires |closes| == |dates| && monthMoney != 0.0
    requires forall k :: 0 <= k < |closes| ==> closes[k] > 0.0
    requires i < |dates|
    ensures var row := Table(dates, closes, monthMoney)[i];
            row.totalInvestment != 0.0 &&
            row.totalValue == row.totalUnits * row.close &&
            row.roi * row.totalInvestment == (row.totalValue - row.totalInvestment) * 100.0
  {
    var row := Table(dates, closes, monthMoney)[i];
    TableInvestment(dates, closes, monthMoney, i);
    assert row.roi == Roi(row.totalValue, row.totalInvestment);
    RatioTimesDivisor(row.totalValue, row.totalInvestment);
  }

  lemma RatioTimesDivisor(x: real, y: real)
    requires y != 0.0
    ensures Roi(x, y) * y == (x - y) * 100.0
  {
    assert (x / y) * y == x;
  }

  /** With a positive monthly amount the return is positive exactly when the holding is
      worth more than what was paid in. */
  lemma TableGainSign(dates: seq<Date>, closes: seq<real>, monthMoney: real, i: nat)
    requires |closes| == |dates| && monthMoney > 0.0
    requires forall k :: 0 <= k < |closes| ==> closes[k] > 0.0
    requires i < |dates|
    ensures var row := Table(dates, closes, monthMoney)[i];
            row.roi > 0.0 <==> row.totalValue > row.totalInvestment
  {
    var row := Table(dates, closes, monthMoney)[i];
    TableInvestment(dates, closes, monthMoney, i);
    TableValuation(dates, closes, monthMoney, i);
    PositiveFactorSign(row.roi, row.totalInvestment, row.totalValue - row.totalInvestment);
  }

  lemma PositiveFactorSign(a: real, b: real, c: real)
    requires b > 0.0 && a * b == c * 100.0
    ensures a > 0.0 <==> c > 0.0
  {
    if a > 0.0 {
      assert a * b > 0.0;
    } else {
      assert a * b <= 0.0;
    }
  }

  /** If the close is the same every month, every month's return is 0. */
  lemma TableFlatClose(dates: seq<Date>, closes: seq<real>, monthMoney: real, c: real, i: nat)
    requires |closes| == |dates| && monthMoney != 0.0 && c > 0.0
    requires forall k :: 0 <= k < |closes| ==> closes[k] == c
    requires i < |dates|
    ensures Table(dates, closes, monthMoney)[i].roi == 0.0
  {
    var row := Table(dates, closes, monthMoney)[i];
    TableFlatValue(dates, closes, monthMoney, c, i);
    TableValuation(dates, closes, monthMoney, i);
    NoGainNoReturn(row.roi, row.totalInvestment, row.totalValue);
  }

  /** At a constant close the holding is always worth exactly what was paid in. */
  lemma TableFlatValue(dates: seq<Date>, closes: seq<real>, monthMoney: real, c: real, i: nat)
    requires |closes| == |dates| && monthMoney != 0.0 && c > 0.0
    requires forall k :: 0 <= k < |closes| ==> closes[k] == c
    requires i < |dates|
    ensures Table(dates, closes, monthMoney)[i].totalValue == Table(dates, closes, monthMoney)[i].totalInvestment
  {
    FlatHolding(closes, monthMoney, c, i);
    TableInvestment(dates, closes, monthMoney, i);
  }

  /** At a constant close c, the units held after month i are worth (i + 1) * monthMoney. */
  lemma FlatHolding(closes: seq<real>, monthMoney: real, c: real, i: nat)
    requires c > 0.0 && i < |closes|
    requires forall k :: 0 <= k < |closes| ==> closes[k] == c
    ensures CumSum(UnitsBought(monthMoney, closes))[i] * closes[i] == (i + 1) as real * monthMoney
  {
    var units := UnitsBought(monthMoney, closes);
    CumSumIsPrefixSum(units, i);
    assert units[..i + 1] == Repeat(monthMoney / c, i + 1);
    SumOfConstant(i + 1, monthMoney / c);
    FlatValue(CumSum(units)[i], closes[i], i + 1, monthMoney, c);
  }

  lemma FlatValue(units: real, close: real, n: nat, m: real, c: real)
    requires c > 0.0 && close == c && units == n as real * (m / c)
    ensures units * close == n as real * m
  {
    assert (m / c) * c == m;
  }

  lemma NoGainNoReturn(roi: real, invested: real, value: real)
    requires invested != 0.0 && value == invested && roi * invested == (value - invested) * 100.0
    ensures roi == 0.0
  {
  }

  /** The forward-filled closes of the given dates. */
  function Closes(data: seq<Quote>, dates: seq<Date>): (r: seq<real>)
    ensures |r| == |dates|
  {
    seq(|dates|, i requires 0 <= i < |dates| => FilledClose(data, dates[i]))
  }

  /** The table of the recurring plan: one row per month start of [start, end] from the
      first one that has a price on, each month investing monthMoney at the forward-filled
      close. An amount of 0 shows nothing, an empty schedule has no final row, and a
      schedule without any price has no final value. */
  function Recurring(data: seq<Quote>, start: Date, end: Date, monthMoney: real): (r: Result<seq<Row>>)
    requires IsPriceSeries(data)
    ensures r.Err? <==> monthMoney == 0.0 || MonthStarts(start, end) == [] ||
                        PricedMonthStarts(data, start, end) == []
    ensures r.Err? ==> r.error == (if monthMoney == 0.0 then NoAmount
                                   else if MonthStarts(start, end) == [] then EmptySchedule
                                   else MissingPrice)
    ensures r.Ok? ==> |r.value| == |PricedMonthStarts(data, start, end)| &&
                      forall i :: 0 <= i < |r.value| ==> r.value[i].date == PricedMonthStarts(data, start, end)[i]
  {
    if monthMoney == 0.0 then Err(NoAmount)
    else if MonthStarts(start, end) == [] then Err(EmptySchedule)
    else
      var dates := PricedMonthStarts(data, start, end);
      if dates == [] then Err(MissingPrice)
      else
        assert forall i :: 0 <= i < |dates| ==> Closes(data, dates)[i] > 0.0 by {
          ScheduleCloses(data, start, end);
        }
        Ok(Table(dates, Closes(data, dates), monthMoney))
  }

  /** A successful plan is the table over the priced month starts at their forward-filled closes. */
  lemma RecurringIsTable(data: seq<Quote>, start: Date, end: Date, monthMoney: real)
    requires IsPriceSeries(data) && Recurring(data, start, end, monthMoney).Ok?
    ensures monthMoney != 0.0
    ensures var dates := PricedMonthStarts(data, start, end);
            (forall i :: 0 <= i < |dates| ==> Closes(data, dates)[i] > 0.0) &&
            Recurring(data, start, end, monthMoney).value == Table(dates, Closes(data, dates), monthMoney)
  {
    ScheduleCloses(data, start, end);
  }

  /** The priced month starts strictly increase and are firsts of months inside [start, end]. */
  lemma PricedMonthStartsSound(data: seq<Quote>, start: Date, end: Date)
    ensures var dates := PricedMonthStarts(data, start, end);
            (forall i, j :: 0 <= i < j < |dates| ==> Before(dates[i], dates[j])) &&
            forall i :: 0 <= i < |dates| ==>
              dates[i].day == 1 && AtOrBefore(start, dates[i]) && AtOrBefore(dates[i], end)
  {
    MonthStartsSound(start, end);
    SuffixOfSchedule(MonthStarts(start, end), FirstPriced(data, MonthStarts(start, end)), start, end);
  }

  /** A suffix of a strictly increasing schedule of month starts inside [start, end] is one too. */
  lemma SuffixOfSchedule(all: seq<Date>, k: nat, start: Date, end: Date)
    requires k <= |all|
    requires forall i, j :: 0 <= i < j < |all| ==> Before(all[i], all[j])
    requires forall d :: d in all ==> d.day == 1 && AtOrBefore(start, d) && AtOrBefore(d, end)
    ensures var dates := all[k..];
            (forall i, j :: 0 <= i < j < |dates| ==> Before(dates[i], dates[j])) &&
            forall i :: 0 <= i < |dates| ==>
              dates[i].day == 1 && AtOrBefore(start, dates[i]) && AtOrBefore(dates[i], end)
  {
    var dates := all[k..];
    forall i, j | 0 <= i < j < |dates| ensures Before(dates[i], dates[j]) {
      assert dates[i] == all[k + i] && dates[j] == all[k + j];
    }
    forall i | 0 <= i < |dates|
      ensures dates[i].day == 1 && AtOrBefore(start, dates[i]) && AtOrBefore(dates[i], end)
    {
      assert dates[i] == all[k + i];
      assert all[k + i] in all;
    }
  }

  /** Every first of month inside [start, end] that has a price is a priced month start:
      the one at the index returned. */
  lemma PricedMonthStartsComplete(data: seq<Quote>, start: Date, end: Date, d: Date) returns (i: nat)
    requires d.day == 1 && AtOrBefore(start, d) && AtOrBefore(d, end)
    requires ForwardFill(data, d).Some?
    ensures i < |PricedMonthStarts(data, start, end)| && PricedMonthStarts(data, start, end)[i] == d
  {
    var all := MonthStarts(start, end);
    var k := FirstPriced(data, all);
    MonthStartsComplete(start, end, d);
    var j :| 0 <= j < |all| && all[j] == d;
    assert k <= j;
    i := j - k;
  }

  /** The rows are the month starts of [start, end] that have a price, strictly increasing,
      none missing. */
  lemma RecurringSchedule(data: seq<Quote>, start: Date, end: Date, monthMoney: real)
    requires IsPriceSeries(data) && Recurring(data, start, end, monthMoney).Ok?
    ensures var rows := Recurring(data, start, end, monthMoney).value;
            (forall i, j :: 0 <= i < j < |rows| ==> Before(rows[i].date, rows[j].date)) &&
            (forall i :: 0 <= i < |rows| ==>
               rows[i].date.day == 1 && AtOrBefore(start, rows[i].date) && AtOrBefore(rows[i].date, end) &&
               ForwardFill(data, rows[i].date).Some?) &&
            (forall d: Date ::
               (d.day == 1 && AtOrBefore(start, d) && AtOrBefore(d, end) && ForwardFill(data, d).Some?) ==>
               exists i :: 0 <= i < |rows| && rows[i].date == d)
  {
    var rows := Recurring(data, start, end, monthMoney).value;
    var dates := PricedMonthStarts(data, start, end);
    PricedMonthStartsSound(data, start, end);
    ScheduleCloses(data, start, end);
    forall d: Date | d.day == 1 && AtOrBefore(start, d) && AtOrBefore(d, end) && ForwardFill(data, d).Some?
      ensures exists i :: 0 <= i < |rows| && rows[i].date == d
    {
      var i := PricedMonthStartsComplete(data, start, end, d);
      assert rows[i].date == d;
    }
  }

  /** A row's close is the close of the latest trading day on or before the row's date. */
  lemma RecurringClose(data: seq<Quote>, start: Date, end: Date, monthMoney: real, i: nat)
    requires IsPriceSeries(data) && Recurring(data, start, end, monthMoney).Ok?
    requires i < |Recurring(data, start, end, monthMoney).value|
    ensures var row := Recurring(data, start, end, monthMoney).value[i];
            ForwardFill(data, row.date) == Some(row.close) && row.close > 0.0 &&
            exists q :: q in data && q.close == row.close && AtOrBefore(q.date, row.date) &&
                        forall q' :: q' in data && AtOrBefore(q'.date, row.date) ==> AtOrBefore(q'.date, q.date)
  {
    var row := Recurring(data, start, end, monthMoney).value[i];
    RecurringIsTable(data, start, end, monthMoney);
    ScheduleCloses(data, start, end);
    ForwardFillIsLatest(data, row.date);
  }

  /** If the price never moves, every month's return is 0. */
  lemma RecurringFlatPrice(data: seq<Quote>, start: Date, end: Date, monthMoney: real, c: real)
    requires IsPriceSeries(data) && Recurring(data, start, end, monthMoney).Ok?
    requires forall q :: q in data ==> q.close == c
    ensures forall i :: 0 <= i < |Recurring(data, start, end, monthMoney).value| ==>
              Recurring(data, start, end, monthMoney).value[i].roi == 0.0
  {
    var dates := PricedMonthStarts(data, start, end);
    var closes := Closes(data, dates);
    RecurringIsTable(data, start, end, monthMoney);
    ScheduleCloses(data, start, end);
    forall k | 0 <= k < |dates| ensures closes[k] == c {
      var j := LastAtOrBefore(data, dates[k]).value;
      assert data[j] in data;
    }
    assert c > 0.0 by {
      assert closes[0] > 0.0;
    }
    forall i | 0 <= i < |dates| ensures Table(dates, closes, monthMoney)[i].roi == 0.0 {
      TableFlatClose(dates, closes, monthMoney, c, i);
    }
  }

  // ---------------------------------------------------------------------------
  // The plan as the page computes it

  /** The close column as the page builds it: the forward fill leaves NaN (None) on a day
      before the first trading day. */
  function NaNCloses(data: seq<Quote>, dates: seq<Date>): (r: seq<Option<real>>)
    ensures |r| == |dates|
  {
    seq(|dates|, i requires 0 <= i < |dates| => ForwardFill(data, dates[i]))
  }

  /** The closes that are not NaN are positive. */
  lemma NaNClosesPositive(data: seq<Quote>, dates: seq<Date>)
    requires PositiveCloses(data)
    ensures forall i :: 0 <= i < |dates| && NaNCloses(data, dates)[i].Some? ==> NaNCloses(data, dates)[i].value > 0.0
  {
    forall i | 0 <= i < |dates| && NaNCloses(data, dates)[i].Some? ensures NaNCloses(data, dates)[i].value > 0.0 {
      ForwardFillPositive(data, dates[i]);
    }
  }

  /** Over the month starts of [start, end] the NaN closes are exactly the leading ones,
      before the first priced month start; every later close is the positive forward-filled one. */
  lemma NaNClosesLeading(data: seq<Quote>, start: Date, end: Date, i: nat)
    requires IsPriceSeries(data) && i < |MonthStarts(start, end)|
    ensures var all := MonthStarts(start, end);
            NaNCloses(data, all)[i] == (if i < FirstPriced(data, all) then None else Some(FilledClose(data, all[i]))) &&
            (i >= FirstPriced(data, all) ==> FilledClose(data, all[i]) > 0.0)
  {
    var all := MonthStarts(start, end);
    var k := FirstPriced(data, all);
    if i >= k {
      ScheduleCloses(data, start, end);
      assert all[i] == PricedMonthStarts(data, start, end)[i - k];
    }
  }

  /** `Investment / Close`: the units each month's money buys, NaN where the close is NaN. */
  function NaNUnits(monthMoney: real, closes: seq<Option<real>>): (r: seq<Option<real>>)
    requires forall i :: 0 <= i < |closes| && closes[i].Some? ==> closes[i].value > 0.0
    ensures |r| == |closes|
  {
    seq(|closes|, i requires 0 <= i < |closes| =>
      if closes[i].Some? then Some(monthMoney / closes[i].value) else None)
  }

  /** Sum of the entries that are not NaN. */
  function SumPresent(xs: seq<Option<real>>): real
    decreases |xs|
  {
    if xs == [] then 0.0 else (if xs[0].Some? then xs[0].value else 0.0) + SumPresent(xs[1..])
  }

  /** `Series.cumsum()` with pandas' default `skipna=True`, continuing from acc: a NaN entry
      stays NaN and adds nothing, every other entry is the running total. */
  function RunningTotalsSkippingNaN(acc: real, xs: seq<Option<real>>): (r: seq<Option<real>>)
    ensures |r| == |xs|
    decreases |xs|
  {
    if xs == [] then []
    else match xs[0]
      case None => [None] + RunningTotalsSkippingNaN(acc, xs[1..])
      case Some(x) => [Some(acc + x)] + RunningTotalsSkippingNaN(acc + x, xs[1..])
  }

  /** `Series.cumsum()` of a column that may hold NaN. */
  function CumSumSkippingNaN(xs: seq<Option<real>>): (r: seq<Option<real>>)
    ensures |r| == |xs|
  {
    RunningTotalsSkippingNaN(0.0, xs)
  }

  lemma {:induction false} RunningTotalsSkippingNaNArePrefixSums(acc: real, xs: seq<Option<real>>, i: nat)
    requires i < |xs|
    ensures RunningTotalsSkippingNaN(acc, xs)[i] ==
            (if xs[i].None? then None else Some(acc + SumPresent(xs[..i + 1])))
    decreases i
  {
    var head := if xs[0].Some? then xs[0].value else 0.0;
    if i > 0 {
      RunningTotalsSkippingNaNArePrefixSums(acc + head, xs[1..], i - 1);
      assert xs[..i + 1][1..] == xs[1..][..i];
    }
  }

  /** Entry i of the cumulative sum is NaN exactly where entry i of the column is, and is
      otherwise the sum of the entries 0..i that are not NaN. */
  lemma CumSumSkippingNaNIsPrefixSum(xs: seq<Option<real>>, i: nat)
    requires i < |xs|
    ensures CumSumSkippingNaN(xs)[i].None? <==> xs[i].None?
    ensures CumSumSkippingNaN(xs)[i].Some? ==> CumSumSkippingNaN(xs)[i].value == SumPresent(xs[..i + 1])
  {
    RunningTotalsSkippingNaNArePrefixSums(0.0, xs, i);
  }

  /** The last entry of `Units.cumsum()`: NaN (None) when the last close is NaN or there is no
      month, and otherwise the units bought in every month that has a close. */
  function UnitsSkippingNaN(monthMoney: real, closes: seq<Option<real>>): (u: Option<real>)
    requires forall i :: 0 <= i < |closes| && closes[i].Some? ==> closes[i].value > 0.0
    ensures u.Some? <==> closes != [] && closes[|closes| - 1].Some?
    ensures u.Some? ==> u.value == SumPresent(NaNUnits(monthMoney, closes))
  {
    if closes == [] then None
    else
      var units := NaNUnits(monthMoney, closes);
      CumSumSkippingNaNIsPrefixSum(units, |units| - 1);
      assert units[..|units|] == units;
      CumSumSkippingNaN(units)[|units| - 1]
  }

  /** The final return the page shows: the last row's `Total Value / Total Investment - 1`,
      times 100. None where the last row is NaN or there is no row. */
  function FinalRoiAsWritten(data: seq<Quote>, start: Date, end: Date, monthMoney: real): (r: Option<real>)
    requires IsPriceSeries(data) && monthMoney != 0.0
    ensures r.Some? <==> MonthStarts(start, end) != [] &&
                         ForwardFill(data, MonthStarts(start, end)[|MonthStarts(start, end)| - 1]).Some?
  {
    FinalRoiOver(data, MonthStarts(start, end), monthMoney)
  }

  /** The return of `units` held at `close` after `months` months of monthMoney each. */
  function PageRoi(units: real, close: real, months: nat, monthMoney: real): real
    requires months > 0 && monthMoney != 0.0
  {
    Roi(units * close, months as real * monthMoney)
  }

  /** The page's final return over a schedule of month starts: Total Investment counts every
      month's money, |dates| * monthMoney, and Total Units only the units of the months that
      have a close. */
  function FinalRoiOver(data: seq<Quote>, dates: seq<Date>, monthMoney: real): (r: Option<real>)
    requires PositiveCloses(data) && monthMoney != 0.0
    ensures r.Some? <==> dates != [] && ForwardFill(data, dates[|dates| - 1]).Some?
  {
    if dates == [] || ForwardFill(data, dates[|dates| - 1]).None? then None
    else
      NaNClosesPositive(data, dates);
      var units := UnitsSkippingNaN(monthMoney, NaNCloses(data, dates));
      Some(PageRoi(units.value, ForwardFill(data, dates[|dates| - 1]).value, |dates|, monthMoney))
  }

  /** A column whose first k entries are NaN sums like the column without them. */
  lemma {:induction false} SumPresentSkipsLeadingNaN(xs: seq<Option<real>>, k: nat)
    requires k <= |xs| && forall i :: 0 <= i < k ==> xs[i].None?
    ensures SumPresent(xs) == SumPresent(xs[k..])
    decreases k
  {
    if k > 0 {
      SumPresentSkipsLeadingNaN(xs[1..], k - 1);
      assert xs[1..][k - 1..] == xs[k..];
    }
  }

  /** A column without NaN sums like the plain column. */
  lemma {:induction false} SumPresentWithoutNaN(xs: seq<Option<real>>, ys: seq<real>)
    requires |xs| == |ys| && forall i :: 0 <= i < |xs| ==> xs[i] == Some(ys[i])
    ensures SumPresent(xs) == Sum(ys)
    decreases |xs|
  {
    if xs != [] {
      SumPresentWithoutNaN(xs[1..], ys[1..]);
    }
  }

  /** When the schedule's last month start has a close c, the page's final return is that of
      the units bought in every month that has a close, valued at c, over every month's money. */
  lemma FinalRoiOverFormula(data: seq<Quote>, dates: seq<Date>, monthMoney: real)
    requires PositiveCloses(data) && monthMoney != 0.0
    requires dates != [] && ForwardFill(data, dates[|dates| - 1]).Some?
    ensures forall i :: 0 <= i < |dates| && NaNCloses(data, dates)[i].Some? ==> NaNCloses(data, dates)[i].value > 0.0
    ensures FinalRoiOver(data, dates, monthMoney) ==
              Some(PageRoi(SumPresent(NaNUnits(monthMoney, NaNCloses(data, dates))),
                           ForwardFill(data, dates[|dates| - 1]).value, |dates|, monthMoney))
  {
    NaNClosesPositive(data, dates);
    var closes := NaNCloses(data, dates);
    assert closes[|dates| - 1] == ForwardFill(data, dates[|dates| - 1]);
    var u := UnitsSkippingNaN(monthMoney, closes);
    assert u.Some?;
    assert u.value == SumPresent(NaNUnits(monthMoney, closes));
  }

  /** The units the page holds at the end are the units the plan buys: the months without a
      close add nothing. */
  lemma PageUnitsArePlanUnits(data: seq<Quote>, start: Date, end: Date, monthMoney: real)
    requires IsPriceSeries(data)
    ensures var all := MonthStarts(start, end);
            forall i :: 0 <= i < |all| && NaNCloses(data, all)[i].Some? ==> NaNCloses(data, all)[i].value > 0.0
    ensures var dates := PricedMonthStarts(data, start, end);
            forall i :: 0 <= i < |dates| ==> Closes(data, dates)[i] > 0.0
    ensures var all := MonthStarts(start, end);
            var dates := PricedMonthStarts(data, start, end);
            SumPresent(NaNUnits(monthMoney, NaNCloses(data, all))) == Sum(UnitsBought(monthMoney, Closes(data, dates)))
  {
    var all := MonthStarts(start, end);
    var k := FirstPriced(data, all);
    var dates := PricedMonthStarts(data, start, end);
    ScheduleCloses(data, start, end);
    NaNClosesPositive(data, all);
    var bought := UnitsBought(monthMoney, Closes(data, dates));
    var units := NaNUnits(monthMoney, NaNCloses(data, all));
    forall i | 0 <= i < |all|
      ensures (i < k ==> units[i].None?) && (i >= k ==> units[i] == Some(bought[i - k]))
    {
      NaNClosesLeading(data, start, end, i);
      if i >= k {
        assert dates[i - k] == all[i];
      }
    }
    SumPresentSkipsLeadingNaN(units, k);
    SumPresentWithoutNaN(units[k..], bought);
  }

  /** The last row holds every unit bought, at the last close. */
  lemma TableLastRow(dates: seq<Date>, closes: seq<real>, monthMoney: real)
    requires |closes| == |dates| && monthMoney != 0.0 && dates != []
    requires forall k :: 0 <= k < |closes| ==> closes[k] > 0.0
    ensures var row := Table(dates, closes, monthMoney)[|dates| - 1];
            row.totalUnits == Sum(UnitsBought(monthMoney, closes)) && row.close == closes[|closes| - 1]
  {
    var last := |dates| - 1;
    TableUnits(dates, closes, monthMoney, last);
    assert UnitsBought(monthMoney, closes)[..last + 1] == UnitsBought(monthMoney, closes);
  }

  /** Whenever the plan has rows, the page's final return is that of the units the plan holds
      at its last close, over every month's money, the NaN months' included. */
  lemma FinalRoiAsWrittenValue(data: seq<Quote>, start: Date, end: Date, monthMoney: real)
    requires IsPriceSeries(data) && Recurring(data, start, end, monthMoney).Ok?
    ensures monthMoney != 0.0 && MonthStarts(start, end) != []
    ensures var rows := Recurring(data, start, end, monthMoney).value;
            rows != [] &&
            FinalRoiAsWritten(data, start, end, monthMoney) ==
              Some(PageRoi(rows[|rows| - 1].totalUnits, rows[|rows| - 1].close, |MonthStarts(start, end)|, monthMoney))
  {
    var all := MonthStarts(start, end);
    var dates := PricedMonthStarts(data, start, end);
    var pc := Closes(data, dates);
    RecurringIsTable(data, start, end, monthMoney);
    NaNClosesLeading(data, start, end, |all| - 1);
    assert dates[|dates| - 1] == all[|all| - 1];
    FinalRoiOverFormula(data, all, monthMoney);
    PageUnitsArePlanUnits(data, start, end, monthMoney);
    TableLastRow(dates, pc, monthMoney);
  }

  /** Row i's return is that of its units at its close over i + 1 months of the amount. */
  lemma TableRoi(dates: seq<Date>, closes: seq<real>, monthMoney: real, i: nat)
    requires |closes| == |dates| && monthMoney != 0.0
    requires forall k :: 0 <= k < |closes| ==> closes[k] > 0.0
    requires i < |dates|
    ensures var row := Table(dates, closes, monthMoney)[i];
            row.roi == PageRoi(row.totalUnits, row.close, i + 1, monthMoney)
  {
    var row := Table(dates, closes, monthMoney)[i];
    TableInvestment(dates, closes, monthMoney, i);
    assert row.totalValue == row.totalUnits * row.close && row.roi == Roi(row.totalValue, row.totalInvestment);
    PageRoiOfHolding(row.totalUnits, row.close, i + 1, monthMoney, row.totalValue, row.totalInvestment);
  }

  lemma PageRoiOfHolding(units: real, close: real, months: nat, monthMoney: real, value: real, invested: real)
    requires months > 0 && monthMoney != 0.0
    requires value == units * close && invested == months as real * monthMoney
    ensures invested != 0.0 && PageRoi(units, close, months, monthMoney) == Roi(value, invested)
  {
  }

  /** When the first month start has a price, the page's final return is the last row's. */
  lemma FinalRoiAsWrittenIsLastRow(data: seq<Quote>, start: Date, end: Date, monthMoney: real)
    requires IsPriceSeries(data) && monthMoney != 0.0
    requires MonthStarts(start, end) != [] && ForwardFill(data, MonthStarts(start, end)[0]).Some?
    ensures Recurring(data, start, end, monthMoney).Ok?
    ensures var rows := Recurring(data, start, end, monthMoney).value;
            rows != [] && FinalRoiAsWritten(data, start, end, monthMoney) == Some(rows[|rows| - 1].roi)
  {
    var all := MonthStarts(start, end);
    assert FirstPriced(data, all) == 0;
    var dates := PricedMonthStarts(data, start, end);
    assert dates == all;
    FinalRoiAsWrittenValue(data, start, end, monthMoney);
    RecurringIsTable(data, start, end, monthMoney);
    var rows := Recurring(data, start, end, monthMoney).value;
    var pc := Closes(data, dates);
    assert rows == Table(dates, pc, monthMoney);
    var row := rows[|rows| - 1];
    assert FinalRoiAsWritten(data, start, end, monthMoney) == Some(PageRoi(row.totalUnits, row.close, |dates|, monthMoney));
    TableRoi(dates, pc, monthMoney, |dates| - 1);
    assert row.roi == PageRoi(row.totalUnits, row.close, |dates|, monthMoney);
  }

  /** When the first month start precedes trading, a positive monthly amount shows a final
      return below that of the plan's last row: the NaN months' money is counted as invested
      and buys nothing. */
  lemma LeadingNaNUnderstatesReturn(data: seq<Quote>, start: Date, end: Date, monthMoney: real)
    requires IsPriceSeries(data) && monthMoney > 0.0 && Recurring(data, start, end, monthMoney).Ok?
    requires MonthStarts(start, end) != [] && ForwardFill(data, MonthStarts(start, end)[0]).None?
    ensures var rows := Recurring(data, start, end, monthMoney).value;
            rows != [] && FinalRoiAsWritten(data, start, end, monthMoney).Some? &&
            FinalRoiAsWritten(data, start, end, monthMoney).value < rows[|rows| - 1].roi
  {
    var all := MonthStarts(start, end);
    assert FirstPriced(data, all) > 0;
    var dates := PricedMonthStarts(data, start, end);
    var pc := Closes(data, dates);
    var last := |dates| - 1;
    FinalRoiAsWrittenValue(data, start, end, monthMoney);
    RecurringIsTable(data, start, end, monthMoney);
    var rows := Recurring(data, start, end, monthMoney).value;
    assert rows == Table(dates, pc, monthMoney);
    var row := rows[last];
    assert FinalRoiAsWritten(data, start, end, monthMoney) == Some(PageRoi(row.totalUnits, row.close, |all|, monthMoney));
    TableRoi(dates, pc, monthMoney, last);
    assert row.roi == PageRoi(row.totalUnits, row.close, |dates|, monthMoney);
    TableLastRow(dates, pc, monthMoney);
    UnitsBoughtPositive(monthMoney, pc);
    SumPositive(UnitsBought(monthMoney, pc));
    assert row.totalUnits > 0.0 && row.close > 0.0;
    PageRoiFallsWithMonths(row.totalUnits, row.close, |all|, |dates|, monthMoney);
    assert PageRoi(row.totalUnits, row.close, |all|, monthMoney) < row.roi;
    assert |rows| - 1 == last;
    assert FinalRoiAsWritten(data, start, end, monthMoney).value < rows[|rows| - 1].roi;
  }

  /** A positive amount buys a positive number of units every month. */
  lemma UnitsBoughtPositive(monthMoney: real, closes: seq<real>)
    requires monthMoney > 0.0 && forall i :: 0 <= i < |closes| ==> closes[i] > 0.0
    ensures forall i :: 0 <= i < |closes| ==> UnitsBought(monthMoney, closes)[i] > 0.0
  {
    forall i | 0 <= i < |closes| ensures UnitsBought(monthMoney, closes)[i] > 0.0 {
      QuotientPositive(monthMoney, closes[i]);
    }
  }

  lemma QuotientPositive(a: real, b: real)
    requires a > 0.0 && b > 0.0
    ensures a / b > 0.0
  {
    assert a / b * b == a;
  }

  /** The same positive holding after more months of a positive amount is a smaller return. */
  lemma PageRoiFallsWithMonths(units: real, close: real, more: nat, fewer: nat, monthMoney: real)
    requires units > 0.0 && close > 0.0 && more > fewer > 0 && monthMoney > 0.0
    ensures PageRoi(units, close, more, monthMoney) < PageRoi(units, close, fewer, monthMoney)
  {
    var value := units * close;
    assert value > 0.0;
    assert more as real * monthMoney > fewer as real * monthMoney > 0.0;
    RoiFallsWithInvestment(value, more as real * monthMoney, fewer as real * monthMoney);
  }

  /** A non-empty sum of positive entries is positive. */
  lemma {:induction false} SumPositive(xs: seq<real>)
    requires xs != [] && forall i :: 0 <= i < |xs| ==> xs[i] > 0.0
    ensures Sum(xs) > 0.0
    decreases |xs|
  {
    if |xs| > 1 {
      SumPositive(xs[1..]);
    }
  }

  /** The same positive value over a larger investment is a smaller return. */
  lemma RoiFallsWithInvestment(value: real, larger: real, smaller: real)
    requires value > 0.0 && larger > smaller > 0.0
    ensures Roi(value, larger) < Roi(value, smaller)
  {
    assert value / larger < value / smaller by {
      assert value / larger * larger == value;
      assert value / smaller * smaller == value;
      assert value / larger * smaller < value;
    }
  }

  /** The page's default start, 2010-01-01, is a market holiday. For a price that stays at
      100 from the first trading day, 2010-01-04, two months of 100 show a return of -50 %:
      January's money is counted and its units are not. The plan that buys only in priced
      months shows 0. */
  lemma HolidayStartUnderstatesReturn(data: seq<Quote>, start: Date, end: Date)
    requires data == [Quote(YMD(2010, 1, 4), 100.0)] && start == YMD(2010, 1, 1) && end == YMD(2010, 2, 1)
    ensures FinalRoiAsWritten(data, start, end, 100.0) == Some(-50.0)
    ensures Recurring(data, start, end, 100.0).Ok? &&
            |Recurring(data, start, end, 100.0).value| == 1 &&
            Recurring(data, start, end, 100.0).value[0].roi == 0.0
  {
    HolidayRoiAsWritten(data, start, end);
    HolidayRoiCorrected(data, start, end);
  }

  /** January and February 2010 are the month starts of [2010-01-01, 2010-02-01], and only
      February has a close when trading starts on 2010-01-04. */
  lemma HolidaySchedule(data: seq<Quote>, start: Date, end: Date)
    requires data == [Quote(YMD(2010, 1, 4), 100.0)] && start == YMD(2010, 1, 1) && end == YMD(2010, 2, 1)
    ensures MonthStarts(start, end) == [start, end]
    ensures ForwardFill(data, start) == None && ForwardFill(data, end) == Some(100.0)
  {
    assert FirstOfMonth(24120) == start;
    assert FirstOfMonth(24121) == end;
    assert ConsecutiveMonthStarts(24121, 1) == [end];
    assert ConsecutiveMonthStarts(24120, 2) == [start, end];
  }

  /** As the page computes it, the holiday example ends at -50 %. */
  lemma HolidayRoiAsWritten(data: seq<Quote>, start: Date, end: Date)
    requires data == [Quote(YMD(2010, 1, 4), 100.0)] && start == YMD(2010, 1, 1) && end == YMD(2010, 2, 1)
    ensures FinalRoiAsWritten(data, start, end, 100.0) == Some(-50.0)
  {
    HolidaySchedule(data, start, end);
    HolidayUnits(data, [start, end]);
  }

  /** The plan that buys only in priced months has one row, February's, at a return of 0. */
  lemma HolidayRoiCorrected(data: seq<Quote>, start: Date, end: Date)
    requires data == [Quote(YMD(2010, 1, 4), 100.0)] && start == YMD(2010, 1, 1) && end == YMD(2010, 2, 1)
    ensures Recurring(data, start, end, 100.0).Ok? &&
            |Recurring(data, start, end, 100.0).value| == 1 &&
            Recurring(data, start, end, 100.0).value[0].roi == 0.0
  {
    HolidaySchedule(data, start, end);
    assert forall q :: q in data ==> q.close == 100.0;
    FlatAfterHoliday(data, start, end, 100.0, 100.0);
  }

  /** A two-month schedule whose first month start precedes trading buys once, in the second
      month, and at a flat price shows a return of 0. */
  lemma FlatAfterHoliday(data: seq<Quote>, start: Date, end: Date, monthMoney: real, c: real)
    requires IsPriceSeries(data) && monthMoney != 0.0
    requires forall q :: q in data ==> q.close == c
    requires |MonthStarts(start, end)| == 2
    requires ForwardFill(data, MonthStarts(start, end)[0]) == None
    requires ForwardFill(data, MonthStarts(start, end)[1]).Some?
    ensures Recurring(data, start, end, monthMoney).Ok? &&
            |Recurring(data, start, end, monthMoney).value| == 1 &&
            Recurring(data, start, end, monthMoney).value[0].roi == 0.0
  {
    var all := MonthStarts(start, end);
    HolidayFirstPriced(data, all);
    var dates := PricedMonthStarts(data, start, end);
    assert |dates| == 1;
    RecurringFlatPrice(data, start, end, monthMoney, c);
  }

  /** Of a holiday followed by a priced month start, the first priced one is the second. */
  lemma HolidayFirstPriced(data: seq<Quote>, dates: seq<Date>)
    requires |dates| == 2 && ForwardFill(data, dates[0]) == None && ForwardFill(data, dates[1]).Some?
    ensures FirstPriced(data, dates) == 1
  {
    assert FirstPriced(data, dates[1..]) == 0;
  }

  /** Only February's money buys units in the holiday example: one unit at 100. */
  lemma HolidayUnits(data: seq<Quote>, dates: seq<Date>)
    requires |dates| == 2 && ForwardFill(data, dates[0]) == None && ForwardFill(data, dates[1]) == Some(100.0)
    ensures forall i :: 0 <= i < 2 && NaNCloses(data, dates)[i].Some? ==> NaNCloses(data, dates)[i].value > 0.0
    ensures UnitsSkippingNaN(100.0, NaNCloses(data, dates)) == Some(1.0)
  {
    var closes := NaNCloses(data, dates);
    assert closes == [None, Some(100.0)];
    var units := NaNUnits(100.0, closes);
    assert units == [None, Some(1.0)];
    assert units[1..] == [Some(1.0)] && units[1..][1..] == [];
    assert SumPresent(units[1..]) == 1.0;
    assert SumPresent(units) == 1.0;
  }
}
