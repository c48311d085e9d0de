/** Daily closing-price series (the 'Close' column of a downloaded price frame,
    indexed by trading date) and the pandas operations the dashboard applies to them. */
module Series {
  import opened Dates
  import opened Results

  /** One trading day's closing price. */
  datatype Quote = Quote(date: Date, close: real)

  /** Dates strictly increase along the series (a sorted index without duplicates). */
  predicate Increasing(s: seq<Quote>) {
    forall i, j :: 0 <= i < j < |s| ==> Before(s[i].date, s[j].date)
  }

  predicate PositiveCloses(s: seq<Quote>) {
    forall q :: q in s ==> q.close > 0.0
  }

  /** What a price download delivers: sorted trading dates, positive closes. */
  predicate IsPriceSeries(s: seq<Quote>) {
    Increasing(s) && PositiveCloses(s)
  }

  /** The index of the series. */
  function DatesOf(s: seq<Quote>): set<Date> {
    set q | q in s :: q.date
  }

  /** The close recorded on day d, if d is in the index (`d in data.index`, `data.loc[d]`). */
  function CloseOn(s: seq<Quote>, d: Date): Option<real> {
    if s == [] then None
    else if s[0].date == d then Some(s[0].close)
    else CloseOn(s[1..], d)
  }

  /** A close is found exactly for the days of the index, and it is that day's quote. */
  lemma {:induction false} CloseOnSpec(s: seq<Quote>, d: Date)
    ensures CloseOn(s, d).Some? <==> d in DatesOf(s)
    ensures CloseOn(s, d).Some? ==> Quote(d, CloseOn(s, d).value) in s
    decreases |s|
  {
    if s != [] {
      DatesOfCons(s);
      if s[0].date != d {
        CloseOnSpec(s[1..], d);
      }
    }
  }

  /** The close on day d, with a missing day read as 0 (the `fill_value=0` of an outer join). */
  function ValueAt(s: seq<Quote>, d: Date): real {
    match CloseOn(s, d)
    case Some(c) => c
    case None => 0.0
  }

  /** Index of the latest quote dated on or before d: forward fill (`reindex(..., method='ffill')`). */
  function LastAtOrBefore(s: seq<Quote>, d: Date): (r: Option<nat>)
    ensures r.Some? ==> r.value < |s| && AtOrBefore(s[r.value].date, d)
    ensures r.Some? ==> forall j :: r.value < j < |s| ==> Before(d, s[j].date)
    ensures r.None? ==> forall j :: 0 <= j < |s| ==> Before(d, s[j].date)
    decreases |s|
  {
    if s == [] then None
    else if AtOrBefore(s[|s| - 1].date, d) then Some(|s| - 1)
    else LastAtOrBefore(s[..|s| - 1], d)
  }

  /** The forward-filled close for day d: the close of the latest trading day at or before d. */
  function ForwardFill(s: seq<Quote>, d: Date): Option<real> {
    match LastAtOrBefore(s, d)
    case Some(k) => Some(s[k].close)
    case None => None
  }

  /** In a sorted series the forward-filled close is the close of a quote at or before d
      such that no quote of the series falls strictly between it and d; it is missing
      only when every quote is later than d. */
  lemma {:induction false} ForwardFillIsLatest(s: seq<Quote>, d: Date)
    requires Increasing(s)
    ensures ForwardFill(s, d).None? <==> forall q :: q in s ==> Before(d, q.date)
    ensures ForwardFill(s, d).Some? ==>
              exists q :: q in s && q.close == ForwardFill(s, d).value && AtOrBefore(q.date, d) &&
                          forall q' :: q' in s && AtOrBefore(q'.date, d) ==> AtOrBefore(q'.date, q.date)
  {
    match LastAtOrBefore(s, d)
    case None =>
    case Some(k) =>
      forall q' | q' in s && AtOrBefore(q'.date, d) ensures AtOrBefore(q'.date, s[k].date) {
        var j :| 0 <= j < |s| && s[j] == q';
        assert j <= k;
      }
      assert s[k] in s;
  }

  /** Once a day has a forward-filled close, every later day has one too. */
  lemma {:induction false} ForwardFillPersists(s: seq<Quote>, d1: Date, d2: Date)
    requires AtOrBefore(d1, d2) && ForwardFill(s, d1).Some?
    ensures ForwardFill(s, d2).Some?
  {
    var k := LastAtOrBefore(s, d1).value;
    AtOrBeforeTransitive(s[k].date, d1, d2);
    assert k < |s| && !Before(d2, s[k].date);
  }

  /** The left insertion point of d (`index.searchsorted(d, side='left')`): the position of
      the first trading day on or after d, or |s| when there is none. */
  function SearchSorted(s: seq<Quote>, d: Date): (i: nat)
    requires Increasing(s)
    ensures i <= |s|
    ensures forall k :: 0 <= k < i ==> Before(s[k].date, d)
    ensures forall k :: i <= k < |s| ==> AtOrBefore(d, s[k].date)
  {
    if s == [] || !Before(s[0].date, d) then
      assert forall k :: 0 <= k < |s| ==> AtOrBefore(d, s[k].date) by {
        forall k | 0 <= k < |s| ensures AtOrBefore(d, s[k].date) {
          if k > 0 { OrderIsStrictTotal(s[k].date, s[0].date, d); }
        }
      }
      0
    else
      1 + SearchSorted(s[1..], d)
  }

  /** Every close multiplied by f (`data['Close'] * f`). */
  function Scale(s: seq<Quote>, f: real): (r: seq<Quote>)
    ensures |r| == |s|
  {
    seq(|s|, i requires 0 <= i < |s| => Quote(s[i].date, s[i].close * f))
  }

  /** Outer join on date with missing days filled with 0, then element-wise sum
      (`a.add(b, fill_value=0)` on two single-column frames). */
  function AddAligned(a: seq<Quote>, b: seq<Quote>): (r: seq<Quote>)
    decreases |a| + |b|
  {
    if a == [] then b
    else if b == [] then a
    else if Before(a[0].date, b[0].date) then [a[0]] + AddAligned(a[1..], b)
    else if Before(b[0].date, a[0].date) then [b[0]] + AddAligned(a, b[1..])
    else [Quote(a[0].date, a[0].close + b[0].close)] + AddAligned(a[1..], b[1..])
  }

  // ---------------------------------------------------------------------------
  // Facts about the index of a series

  lemma DatesOfCons(s: seq<Quote>)
    requires s != []
    ensures DatesOf(s) == {s[0].date} + DatesOf(s[1..])
  {
    assert s == [s[0]] + s[1..];
    forall d | d in DatesOf(s) ensures d in {s[0].date} + DatesOf(s[1..]) {
      var q :| q in s && q.date == d;
    }
    forall d | d in {s[0].date} + DatesOf(s[1..]) ensures d in DatesOf(s) {
      if d != s[0].date {
        var q :| q in s[1..] && q.date == d;
      }
    }
  }

  lemma DatesOfEmpty(s: seq<Quote>)
    ensures DatesOf(s) == {} <==> s == []
  {
    if s != [] {
      assert s[0].date in DatesOf(s);
    }
  }

  /** In a sorted series every later quote is strictly after the first one. */
  lemma {:induction false} FirstIsEarliest(s: seq<Quote>, d: Date)
    requires Increasing(s) && s != []
    ensures d in DatesOf(s[1..]) ==> Before(s[0].date, d)
    ensures AtOrBefore(d, s[0].date) ==> d !in DatesOf(s[1..])
  {
    if d in DatesOf(s[1..]) {
      var q :| q in s[1..] && q.date == d;
      var j :| 0 <= j < |s[1..]| && s[1..][j] == q;
      assert s[j + 1] == q;
      OrderIsStrictTotal(s[0].date, d, d);
    }
  }

  /** In a sorted series the close on the date of quote i is that quote's close. */
  lemma {:induction false} CloseOnIndex(s: seq<Quote>, i: nat)
    requires Increasing(s) && i < |s|
    ensures CloseOn(s, s[i].date) == Some(s[i].close)
    decreases i
  {
    if i > 0 {
      assert Before(s[0].date, s[i].date);
      assert s[1..][i - 1] == s[i];
      CloseOnIndex(s[1..], i - 1);
    }
  }

  // ---------------------------------------------------------------------------
  // Scaling

  lemma {:induction false} ScaleTail(s: seq<Quote>, f: real)
    requires s != []
    ensures Scale(s, f)[0] == Quote(s[0].date, s[0].close * f)
    ensures Scale(s, f)[1..] == Scale(s[1..], f)
  {
    var r, t := Scale(s, f)[1..], Scale(s[1..], f);
    assert |r| == |t|;
    forall i | 0 <= i < |r| ensures r[i] == t[i] {
      assert s[1..][i] == s[i + 1];
    }
  }

  /** Scaling keeps the index and multiplies the close of every day by f. */
  lemma ScaleCloses(s: seq<Quote>, f: real)
    ensures DatesOf(Scale(s, f)) == DatesOf(s)
    ensures forall d :: ValueAt(Scale(s, f), d) == ValueAt(s, d) * f
  {
    ScaleDates(s, f);
    forall d ensures ValueAt(Scale(s, f), d) == ValueAt(s, d) * f {
      ScaleValueAt(s, f, d);
    }
  }

  lemma ScaleDates(s: seq<Quote>, f: real)
    ensures DatesOf(Scale(s, f)) == DatesOf(s)
  {
    var r := Scale(s, f);
    forall d | d in DatesOf(s) ensures d in DatesOf(r) {
      var i :| 0 <= i < |s| && s[i].date == d;
      assert r[i] in r;
    }
    forall d | d in DatesOf(r) ensures d in DatesOf(s) {
      var i :| 0 <= i < |r| && r[i].date == d;
      assert s[i] in s;
    }
  }

  lemma ScaleValueAt(s: seq<Quote>, f: real, d: Date)
    ensures ValueAt(Scale(s, f), d) == ValueAt(s, d) * f
  {
    CloseOnScale(s, f, d);
  }

  lemma {:induction false} CloseOnScale(s: seq<Quote>, f: real, d: Date)
    ensures CloseOn(Scale(s, f), d).Some? == CloseOn(s, d).Some?
    ensures CloseOn(s, d).Some? ==> CloseOn(Scale(s, f), d).value == CloseOn(s, d).value * f
    decreases |s|
  {
    if s != [] {
      ScaleTail(s, f);
      if s[0].date != d {
        CloseOnScale(s[1..], f, d);
      }
    }
  }

  /** Scaling keeps a series sorted, and keeps closes positive when f is. */
  lemma ScaleKeepsPriceSeries(s: seq<Quote>, f: real)
    ensures Increasing(s) ==> Increasing(Scale(s, f))
    ensures PositiveCloses(s) && f > 0.0 ==> PositiveCloses(Scale(s, f))
  {
    var r := Scale(s, f);
    if PositiveCloses(s) && f > 0.0 {
      forall q | q in r ensures q.close > 0.0 {
        var i :| 0 <= i < |r| && r[i] == q;
        assert s[i] in s;
      }
    }
  }

  /** Scaling by 1 changes nothing. */
  lemma ScaleByOne(s: seq<Quote>)
    ensures Scale(s, 1.0) == s
  {
  }

  // ---------------------------------------------------------------------------
  // The outer-join sum

  /** The sum of two sorted series is sorted, its index is the union of theirs, and its
      value on every day is the sum of their values, a missing day counting as 0. */
  lemma AddAlignedSpec(a: seq<Quote>, b: seq<Quote>)
    requires Increasing(a) && Increasing(b)
    ensures Increasing(AddAligned(a, b))
    ensures DatesOf(AddAligned(a, b)) == DatesOf(a) + DatesOf(b)
    ensures forall d :: ValueAt(AddAligned(a, b), d) == ValueAt(a, d) + ValueAt(b, d)
  {
    AddAlignedSorted(a, b);
    forall d ensures ValueAt(AddAligned(a, b), d) == ValueAt(a, d) + ValueAt(b, d) {
      AddAlignedValueAt(a, b, d);
    }
  }

  lemma {:induction false} AddAlignedSorted(a: seq<Quote>, b: seq<Quote>)
    requires Increasing(a) && Increasing(b)
    ensures Increasing(AddAligned(a, b))
    ensures DatesOf(AddAligned(a, b)) == DatesOf(a) + DatesOf(b)
    decreases |a| + |b|
  {
    var r := AddAligned(a, b);
    if a == [] {
    } else if b == [] {
    } else {
      DatesOfCons(a);
      DatesOfCons(b);
      var x, rest;
      if Before(a[0].date, b[0].date) {
        x, rest := a[0], AddAligned(a[1..], b);
        AddAlignedSorted(a[1..], b);
        forall d | d in DatesOf(b) ensures Before(x.date, d) {
          if d != b[0].date { FirstIsEarliest(b, d); OrderIsStrictTotal(x.date, b[0].date, d); }
        }
        forall d | d in DatesOf(a[1..]) ensures Before(x.date, d) {
          FirstIsEarliest(a, d);
        }
      } else if Before(b[0].date, a[0].date) {
        x, rest := b[0], AddAligned(a, b[1..]);
        AddAlignedSorted(a, b[1..]);
        forall d | d in DatesOf(a) ensures Before(x.date, d) {
          if d != a[0].date { FirstIsEarliest(a, d); OrderIsStrictTotal(x.date, a[0].date, d); }
        }
        forall d | d in DatesOf(b[1..]) ensures Before(x.date, d) {
          FirstIsEarliest(b, d);
        }
      } else {
        OrderIsStrictTotal(a[0].date, b[0].date, b[0].date);
        x, rest := Quote(a[0].date, a[0].close + b[0].close), AddAligned(a[1..], b[1..]);
        AddAlignedSorted(a[1..], b[1..]);
        forall d | d in DatesOf(a[1..]) ensures Before(x.date, d) {
          FirstIsEarliest(a, d);
        }
        forall d | d in DatesOf(b[1..]) ensures Before(x.date, d) {
          FirstIsEarliest(b, d);
        }
      }
      assert r == [x] + rest;
      DatesOfCons(r);
      assert r[1..] == rest;
      forall i, j | 0 <= i < j < |r| ensures Before(r[i].date, r[j].date) {
        if i == 0 {
          assert r[j] in rest;
          assert r[j].date in DatesOf(rest);
        } else {
          assert rest[i - 1] == r[i] && rest[j - 1] == r[j];
        }
      }
    }
  }

  /** A day before the first quote of a sorted series is not in its index. */
  lemma BeforeFirstIsAbsent(s: seq<Quote>, d: Date)
    requires Increasing(s) && s != [] && Before(d, s[0].date)
    ensures CloseOn(s, d) == None
  {
    DatesOfCons(s);
    FirstIsEarliest(s, d);
    CloseOnSpec(s, d);
  }

  lemma {:induction false} AddAlignedValueAt(a: seq<Quote>, b: seq<Quote>, d: Date)
    requires Increasing(a) && Increasing(b)
    ensures ValueAt(AddAligned(a, b), d) == ValueAt(a, d) + ValueAt(b, d)
    decreases |a| + |b|
  {
    if a != [] && b != [] {
      if Before(a[0].date, b[0].date) {
        if d == a[0].date {
          BeforeFirstIsAbsent(b, d);
        } else {
          AddAlignedValueAt(a[1..], b, d);
        }
      } else if Before(b[0].date, a[0].date) {
        if d == b[0].date {
          BeforeFirstIsAbsent(a, d);
        } else {
          AddAlignedValueAt(a, b[1..], d);
        }
      } else {
        OrderIsStrictTotal(a[0].date, b[0].date, b[0].date);
        if d != a[0].date {
          AddAlignedValueAt(a[1..], b[1..], d);
        }
      }
    }
  }

  /** Adding two series with positive closes gives positive closes. */
  lemma {:induction false} AddAlignedPositive(a: seq<Quote>, b: seq<Quote>)
    requires PositiveCloses(a) && PositiveCloses(b)
    ensures PositiveCloses(AddAligned(a, b))
    decreases |a| + |b|
  {
    if a != [] && b != [] {
      assert a[0] in a && b[0] in b;
      if Before(a[0].date, b[0].date) {
        AddAlignedPositive(a[1..], b);
      } else if Before(b[0].date, a[0].date) {
        AddAlignedPositive(a, b[1..]);
      } else {
        AddAlignedPositive(a[1..], b[1..]);
      }
    }
  }

  /** A sorted series is determined by its index and its value on each day. */
  lemma {:induction false} SeriesExtensionality(a: seq<Quote>, b: seq<Quote>)
    requires Increasing(a) && Increasing(b)
    requires DatesOf(a) == DatesOf(b)
    requires forall d :: ValueAt(a, d) == ValueAt(b, d)
    ensures a == b
    decreases |a|
  {
    if a == [] {
      DatesOfEmpty(b);
    } else {
      assert a[0].date in DatesOf(a);
      assert b != [];
      DatesOfCons(a);
      DatesOfCons(b);
      if Before(a[0].date, b[0].date) {
        FirstIsEarliest(b, a[0].date);
        OrderIsStrictTotal(a[0].date, b[0].date, b[0].date);
        assert false;
      }
      if Before(b[0].date, a[0].date) {
        assert false;
      }
      OrderIsStrictTotal(a[0].date, b[0].date, b[0].date);
      var d0 := a[0].date;
      assert ValueAt(a, d0) == a[0].close && ValueAt(b, d0) == b[0].close;
      FirstIsEarliest(a, d0);
      FirstIsEarliest(b, d0);
      assert DatesOf(a[1..]) == DatesOf(a) - {d0};
      assert DatesOf(b[1..]) == DatesOf(b) - {d0};
      forall d ensures ValueAt(a[1..], d) == ValueAt(b[1..], d) {
        if d == d0 {
          CloseOnSpec(a[1..], d0);
          CloseOnSpec(b[1..], d0);
        } else {
          assert ValueAt(a[1..], d) == ValueAt(a, d);
          assert ValueAt(b[1..], d) == ValueAt(b, d);
        }
      }
      SeriesExtensionality(a[1..], b[1..]);
      assert a == [a[0]] + a[1..] && b == [b[0]] + b[1..];
    }
  }
}
