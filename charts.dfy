/** The two small lookups of the chart pages: the close on one chosen day (`graph`), and a
    series rebased to its first trading day on or after the start date (`compare`). */
module Charts {
  import opened Dates
  import opened Results
  import opened Series

  // ---------------------------------------------------------------------------
  // One day's price

  /** What the price page shows for a chosen day. */
  datatype Lookup =
    | Found(close: real)   // the day's quote
    | MarketClosed         // inside the range, but not a trading day of the series
    | OutOfRange           // the day is outside [start, end]

  /** The range check, then the index check, then the row for the day. */
  function LookupDay(data: seq<Quote>, start: Date, end: Date, day: Date): (r: Lookup)
    ensures r == OutOfRange <==> !(AtOrBefore(start, day) && AtOrBefore(day, end))
    ensures r.Found? <==> AtOrBefore(start, day) && AtOrBefore(day, end) && day in DatesOf(data)
    ensures r.Found? ==> Quote(day, r.close) in data
  {
    if AtOrBefore(start, day) && AtOrBefore(day, end) then
      CloseOnSpec(data, day);
      match CloseOn(data, day)
      case Some(c) => Found(c)
      case None => MarketClosed
    else OutOfRange
  }

  /** Every quote of a sorted series inside the range is found with its own close. */
  lemma LookupFindsQuote(data: seq<Quote>, start: Date, end: Date, k: nat)
    requires Increasing(data) && k < |data|
    requires AtOrBefore(start, data[k].date) && AtOrBefore(data[k].date, end)
    ensures LookupDay(data, start, end, data[k].date) == Found(data[k].close)
  {
    CloseOnIndex(data, k);
  }

  // ---------------------------------------------------------------------------
  // Relative close

  /** `Close / Close[searchsorted(start, side='left')]`: every close divided by the close of
      the first trading day on or after start; indexing past the end fails when there is
      no such day. */
  function RelativeClose(data: seq<Quote>, start: Date): (r: Result<seq<Quote>>)
    requires IsPriceSeries(data)
    ensures r.Err? <==> forall k :: 0 <= k < |data| ==> Before(data[k].date, start)
    ensures r.Err? ==> r.error == NoTradingDay
    ensures r.Ok? ==> |r.value| == |data|
  {
    var b := SearchSorted(data, start);
    if b == |data| then Err(NoTradingDay)
    else
      assert data[b] in data;
      Ok(Scale(data, 1.0 / data[b].close))
  }

  /** The series is rebased at its first trading day on or after start: that day reads 1,
      the dates are kept, and every close is its original close over the base close. */
  lemma RelativeCloseSpec(data: seq<Quote>, start: Date)
    requires IsPriceSeries(data) && RelativeClose(data, start).Ok?
    ensures var b, r := SearchSorted(data, start), RelativeClose(data, start).value;
            b < |data| && AtOrBefore(start, data[b].date) &&
            (forall k :: 0 <= k < b ==> Before(data[k].date, start)) &&
            r[b].close == 1.0 &&
            forall k :: 0 <= k < |data| ==>
              r[k].date == data[k].date && Rebased(r[k].close, data[k].close, data[b].close) && r[k].close > 0.0
  {
    var b := SearchSorted(data, start);
    var r := RelativeClose(data, start).value;
    forall k | 0 <= k < |data|
      ensures r[k].date == data[k].date && Rebased(r[k].close, data[k].close, data[b].close) && r[k].close > 0.0
    {
      RelativeCloseAt(data, start, k);
    }
    RelativeCloseAt(data, start, b);
  }

  /** One rebased quote; the base day's own quote reads exactly 1. */
  lemma RelativeCloseAt(data: seq<Quote>, start: Date, k: nat)
    requires IsPriceSeries(data) && RelativeClose(data, start).Ok? && k < |data|
    ensures var b, r := SearchSorted(data, start), RelativeClose(data, start).value;
            b < |data| && r[k].date == data[k].date &&
            Rebased(r[k].close, data[k].close, data[b].close) && r[k].close > 0.0 &&
            (k == b ==> r[k].close == 1.0)
  {
    var b := SearchSorted(data, start);
    assert data[b] in data && data[k] in data;
    RebaseQuote(data, data[b].close, k);
  }

  lemma RebaseQuote(s: seq<Quote>, base: real, k: nat)
    requires k < |s| && s[k].close > 0.0 && base > 0.0
    ensures var q := Scale(s, 1.0 / base)[k];
            q.date == s[k].date && Rebased(q.close, s[k].close, base) && q.close > 0.0 &&
            (s[k].close == base ==> q.close == 1.0)
  {
    DivideThenMultiply(s[k].close, base);
  }

  /** `y` is `x` over `base`. */
  predicate Rebased(y: real, x: real, base: real) {
    y * base == x
  }

  lemma DivideThenMultiply(x: real, y: real)
    requires x > 0.0 && y > 0.0
    ensures x * (1.0 / y) * y == x && x * (1.0 / y) > 0.0
    ensures x == y ==> x * (1.0 / y) == 1.0
  {
    assert (1.0 / y) * y == 1.0;
  }

  /** Rebasing does not depend on the price level: a series scaled by any positive factor
      (a portfolio's weighted closes, say) rebases to the same relative series. */
  lemma RelativeCloseIgnoresScale(data: seq<Quote>, start: Date, f: real)
    requires IsPriceSeries(data) && f > 0.0
    ensures IsPriceSeries(Scale(data, f))
    ensures RelativeClose(Scale(data, f), start) == RelativeClose(data, start)
  {
    ScaleKeepsPriceSeries(data, f);
    var s := Scale(data, f);
    assert forall k :: 0 <= k < |data| ==> s[k].date == data[k].date;
    SearchSortedSameDates(s, data, start);
    var b := SearchSorted(data, start);
    if b < |data| {
      assert data[b] in data;
      RebaseScaled(data, f, b);
      RelativeCloseUnfold(s, start);
      RelativeCloseUnfold(data, start);
    }
  }

  lemma RelativeCloseUnfold(data: seq<Quote>, start: Date)
    requires IsPriceSeries(data) && SearchSorted(data, start) < |data|
    ensures RelativeClose(data, start) == Ok(Scale(data, 1.0 / data[SearchSorted(data, start)].close))
  {
  }

  /** Scaling by f and then dividing by the scaled close of quote b is dividing by the
      original close of quote b. */
  lemma RebaseScaled(data: seq<Quote>, f: real, b: nat)
    requires f > 0.0 && b < |data| && data[b].close > 0.0
    ensures Scale(Scale(data, f), 1.0 / Scale(data, f)[b].close) == Scale(data, 1.0 / data[b].close)
  {
    var s := Scale(data, f);
    assert s[b].close == data[b].close * f;
    var r1, r2 := Scale(s, 1.0 / s[b].close), Scale(data, 1.0 / data[b].close);
    forall k | 0 <= k < |data| ensures r1[k] == r2[k] {
      CancelScale(data[k].close, data[b].close, f);
    }
  }

  lemma CancelScale(x: real, y: real, f: real)
    requires y > 0.0 && f > 0.0
    ensures x * f * (1.0 / (y * f)) == x * (1.0 / y)
  {
    assert (1.0 / (y * f)) * f == 1.0 / y;
  }

  /** The insertion point reads only the dates. */
  lemma {:induction false} SearchSortedSameDates(a: seq<Quote>, b: seq<Quote>, d: Date)
    requires Increasing(a) && Increasing(b) && |a| == |b|
    requires forall k :: 0 <= k < |a| ==> a[k].date == b[k].date
    ensures SearchSorted(a, d) == SearchSorted(b, d)
    decreases |a|
  {
    if a != [] && Before(a[0].date, d) {
      SearchSortedSameDates(a[1..], b[1..], d);
    }
  }
}
