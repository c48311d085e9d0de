/** `get_portfolio_weighted_price`: one synthetic close series for a portfolio, the sum
    over its tickers of each close scaled by the ticker's share of the total weight,
    aligned on date with a missing day counting as 0. */
module WeightedPrice {
  import opened Dates
  import opened Results
  import opened Series
  import opened PortfolioBuilder

  /** The close series downloaded for each ticker; a ticker without an entry downloads nothing. */
  type Downloads = map<string, seq<Quote>>

  function Download(data: Downloads, ticker: string): seq<Quote> {
    if ticker in data then data[ticker] else []
  }

  /** `order` lists the tickers of the portfolio and nothing else. */
  predicate ListsKeys(p: Weights, order: seq<string>) {
    (forall t :: t in p ==> t in order) && (forall t :: t in order ==> t in p)
  }

  predicate AllIncreasing(data: Downloads) {
    forall t :: t in data ==> Increasing(data[t])
  }

  /** Sum of f over the tickers of `order`, left to right. */
  function SumOver(order: seq<string>, f: string -> real): real
    decreases |order|
  {
    if order == [] then 0.0 else SumOver(order[..|order| - 1], f) + f(order[|order| - 1])
  }

  /** The weight of each ticker, 0 for one outside the portfolio. */
  function WeightOf(p: Weights): string -> real {
    t => if t in p then p[t] else 0.0
  }

  /** `sum(portfolio.values())` */
  function WeightTotal(p: Weights, order: seq<string>): real {
    SumOver(order, WeightOf(p))
  }

  /** Each ticker's normalised weight `weight / weight_total` (0 outside the portfolio, and
      for a zero total, where the source never gets to use it). */
  function Shares(p: Weights, total: real): string -> real {
    t => if t in p && total != 0.0 then p[t] / total else 0.0
  }

  /** No ticker of `order` has any price data. */
  predicate NoData(data: Downloads, order: seq<string>) {
    forall j :: 0 <= j < |order| ==> Download(data, order[j]) == []
  }

  /** The accumulated frame after the loop has visited the tickers of `order`: tickers
      without data are skipped, the first one with data is copied in scaled by its share,
      and every later one is added, scaled, with an outer join on date. */
  function Combined(order: seq<string>, data: Downloads, share: string -> real): seq<Quote>
    decreases |order|
  {
    if order == [] then []
    else
      var acc := Combined(order[..|order| - 1], data, share);
      var s := Download(data, order[|order| - 1]);
      if s == [] then acc
      else if acc == [] then Scale(s, share(order[|order| - 1]))
      else AddAligned(acc, Scale(s, share(order[|order| - 1])))
  }

  /** The weighted portfolio series, or ZeroWeightTotal where the source divides by a
      zero weight total (some ticker has data while the weights sum to 0). */
  function PortfolioPrice(p: Weights, order: seq<string>, data: Downloads): (r: Result<seq<Quote>>)
    requires ListsKeys(p, order)
    ensures r.Err? <==> WeightTotal(p, order) == 0.0 && !NoData(data, order)
    ensures r.Err? ==> r.error == ZeroWeightTotal
  {
    var total := WeightTotal(p, order);
    if total == 0.0 && !NoData(data, order) then Err(ZeroWeightTotal)
    else Ok(Combined(order, data, Shares(p, total)))
  }

  method GetPortfolioWeightedPrice(p: Weights, order: seq<string>, data: Downloads)
    returns (r: Result<seq<Quote>>)
    requires ListsKeys(p, order)
    ensures r == PortfolioPrice(p, order, data)
  {
    var total := WeightTotal(p, order);
    var acc: seq<Quote> := [];
    for i := 0 to |order|
      invariant total == 0.0 ==> NoData(data, order[..i])
      invariant acc == Combined(order[..i], data, Shares(p, total))
    {
      var ticker := order[i];
      var s := Download(data, ticker);
      if s != [] {
        if total == 0.0 {
          ZeroTotalFails(p, order, data, i);
          return Err(ZeroWeightTotal);
        }
        var weighted := Scale(s, p[ticker] / total);
        if acc == [] {
          acc := weighted;
        } else {
          acc := AddAligned(acc, weighted);
        }
      } else if total == 0.0 {
        NoDataStep(data, order, i);
      }
      CombinedStep(order, data, Shares(p, total), i);
    }
    assert order[..|order|] == order;
    return Ok(acc);
  }

  /** A ticker with data under a zero weight total makes the whole computation fail. */
  lemma ZeroTotalFails(p: Weights, order: seq<string>, data: Downloads, i: nat)
    requires ListsKeys(p, order) && i < |order|
    requires WeightTotal(p, order) == 0.0 && Download(data, order[i]) != []
    ensures PortfolioPrice(p, order, data) == Err(ZeroWeightTotal)
  {
    assert order[i] in order;
  }

  /** Visiting ticker i extends the frame built from the tickers before it. */
  lemma CombinedStep(order: seq<string>, data: Downloads, share: string -> real, i: nat)
    requires i < |order|
    ensures var acc, s := Combined(order[..i], data, share), Download(data, order[i]);
            Combined(order[..i + 1], data, share) ==
              if s == [] then acc
              else if acc == [] then Scale(s, share(order[i]))
              else AddAligned(acc, Scale(s, share(order[i])))
  {
    assert order[..i + 1][..i] == order[..i];
  }

  /** The tickers without data grow by one when ticker i has none. */
  lemma NoDataStep(data: Downloads, order: seq<string>, i: nat)
    requires i < |order| && NoData(data, order[..i]) && Download(data, order[i]) == []
    ensures NoData(data, order[..i + 1])
  {
    assert order[..i + 1] == order[..i] + [order[i]];
  }

  /** No ticker of the list has data exactly when no member of it has. */
  lemma NoDataMembership(data: Downloads, order: seq<string>)
    ensures NoData(data, order) <==> forall t :: t in order ==> Download(data, t) == []
  {
    if !NoData(data, order) {
      var j :| 0 <= j < |order| && Download(data, order[j]) != [];
      assert order[j] in order;
    }
  }

  /** When no ticker has data the result is empty, whatever the weights. */
  lemma {:induction false} CombinedWithoutData(order: seq<string>, data: Downloads, share: string -> real)
    requires NoData(data, order)
    ensures Combined(order, data, share) == []
    decreases |order|
  {
    if order != [] {
      assert order[|order| - 1] in order;
      CombinedWithoutData(order[..|order| - 1], data, share);
    }
  }

  // ---------------------------------------------------------------------------
  // The reference definition: a per-day weighted sum

  /** Each ticker's part in the portfolio value on day d: its close that day (0 without a
      quote) times its share. */
  function ContributionOn(data: Downloads, share: string -> real, d: Date): string -> real {
    t => ValueAt(Download(data, t), d) * share(t)
  }

  /** The portfolio value on day d, summed ticker by ticker. */
  function WeightedSumAt(order: seq<string>, data: Downloads, share: string -> real, d: Date): real {
    SumOver(order, ContributionOn(data, share, d))
  }

  /** The days on which at least one ticker of `order` has a quote. */
  function TradingDays(data: Downloads, order: seq<string>): set<Date>
    decreases |order|
  {
    if order == [] then {}
    else TradingDays(data, order[..|order| - 1]) + DatesOf(Download(data, order[|order| - 1]))
  }

  lemma {:induction false} TradingDaysMembership(data: Downloads, order: seq<string>, d: Date)
    ensures d in TradingDays(data, order) <==> exists t :: t in order && d in DatesOf(Download(data, t))
    decreases |order|
  {
    if order != [] {
      var pre := order[..|order| - 1];
      TradingDaysMembership(data, pre, d);
      assert order == pre + [order[|order| - 1]];
      if d in TradingDays(data, order) && d !in DatesOf(Download(data, order[|order| - 1])) {
        var t :| t in pre && d in DatesOf(Download(data, t));
        assert t in order;
      }
      if exists t :: t in order && d in DatesOf(Download(data, t)) {
        var t :| t in order && d in DatesOf(Download(data, t));
        if t != order[|order| - 1] {
          assert t in pre;
        }
      }
    }
  }

  /** The accumulated series is sorted, holds exactly the days on which some ticker traded,
      and on each such day its close is the sum of close * share over the tickers, a ticker
      without a quote that day contributing 0. */
  lemma CombinedSpec(order: seq<string>, data: Downloads, share: string -> real)
    requires AllIncreasing(data)
    ensures Increasing(Combined(order, data, share))
    ensures DatesOf(Combined(order, data, share)) == TradingDays(data, order)
    ensures forall d :: ValueAt(Combined(order, data, share), d) == WeightedSumAt(order, data, share, d)
  {
    CombinedDates(order, data, share);
    forall d ensures ValueAt(Combined(order, data, share), d) == WeightedSumAt(order, data, share, d) {
      CombinedValueAt(order, data, share, d);
      ScaledSumIsWeightedSum(order, data, share, d);
    }
  }

  lemma {:induction false} CombinedDates(order: seq<string>, data: Downloads, share: string -> real)
    requires AllIncreasing(data)
    ensures Increasing(Combined(order, data, share))
    ensures DatesOf(Combined(order, data, share)) == TradingDays(data, order)
    decreases |order|
  {
    if order == [] {
      DatesOfEmpty([]);
    } else {
      var pre, ticker := order[..|order| - 1], order[|order| - 1];
      CombinedDates(pre, data, share);
      AccumulateStep(Combined(pre, data, share), Download(data, ticker), share(ticker), Combined(order, data, share));
    }
  }

  /** The weighted sum on day d, each ticker's term read off its scaled series. */
  function ScaledSumAt(order: seq<string>, data: Downloads, share: string -> real, d: Date): real {
    SumOver(order, ScaledValueOn(data, share, d))
  }

  function ScaledValueOn(data: Downloads, share: string -> real, d: Date): string -> real {
    t => ValueAt(Scale(Download(data, t), share(t)), d)
  }

  lemma {:induction false} CombinedValueAt(order: seq<string>, data: Downloads, share: string -> real, d: Date)
    requires AllIncreasing(data)
    ensures ValueAt(Combined(order, data, share), d) == ScaledSumAt(order, data, share, d)
    decreases |order|
  {
    if order != [] {
      var pre := order[..|order| - 1];
      CombinedDates(pre, data, share);
      CombinedValueAt(pre, data, share, d);
      assert Increasing(Download(data, order[|order| - 1]));
      AccumulateValueAt(Combined(pre, data, share), Download(data, order[|order| - 1]),
        share(order[|order| - 1]), Combined(order, data, share), d);
    }
  }

  /** Both readings of the day's sum agree: a scaled series is worth close * share. */
  lemma ScaledSumIsWeightedSum(order: seq<string>, data: Downloads, share: string -> real, d: Date)
    ensures ScaledSumAt(order, data, share, d) == WeightedSumAt(order, data, share, d)
  {
    forall t | t in order ensures ScaledValueOn(data, share, d)(t) == ContributionOn(data, share, d)(t) {
      ScaleCloses(Download(data, t), share(t));
    }
    SumOverCongruence(order, ScaledValueOn(data, share, d), ContributionOn(data, share, d));
  }

  lemma {:induction false} SumOverCongruence(order: seq<string>, f: string -> real, g: string -> real)
    requires forall t :: t in order ==> f(t) == g(t)
    ensures SumOver(order, f) == SumOver(order, g)
    decreases |order|
  {
    if order != [] {
      assert order[|order| - 1] in order;
      SumOverCongruence(order[..|order| - 1], f, g);
    }
  }

  lemma AccumulateValueAt(acc: seq<Quote>, s: seq<Quote>, f: real, next: seq<Quote>, d: Date)
    requires Increasing(acc) && Increasing(s)
    requires next == if s == [] then acc else if acc == [] then Scale(s, f) else AddAligned(acc, Scale(s, f))
    ensures ValueAt(next, d) == ValueAt(acc, d) + ValueAt(Scale(s, f), d)
  {
    if s == [] {
      assert Scale(s, f) == [];
    } else if acc != [] {
      ScaleKeepsPriceSeries(s, f);
      AddAlignedSpec(acc, Scale(s, f));
    }
  }

  /** One turn of the loop: the accumulated series takes in the ticker's series scaled by f. */
  lemma AccumulateStep(acc: seq<Quote>, s: seq<Quote>, f: real, next: seq<Quote>)
    requires Increasing(acc) && Increasing(s)
    requires next == if s == [] then acc else if acc == [] then Scale(s, f) else AddAligned(acc, Scale(s, f))
    ensures Increasing(next)
    ensures DatesOf(next) == DatesOf(acc) + DatesOf(s)
    ensures forall d :: ValueAt(next, d) == ValueAt(acc, d) + ValueAt(s, d) * f
  {
    if s == [] {
      DatesOfEmpty(s);
    } else {
      ScaleCloses(s, f);
      ScaleKeepsPriceSeries(s, f);
      if acc == [] {
        DatesOfEmpty(acc);
      } else {
        AddAlignedSpec(acc, Scale(s, f));
      }
    }
  }

  /** With positive shares and positive closes the portfolio series has positive closes. */
  lemma {:induction false} CombinedPositive(order: seq<string>, data: Downloads, share: string -> real)
    requires forall t :: t in order ==> share(t) > 0.0
    requires forall t :: t in data ==> PositiveCloses(data[t])
    ensures PositiveCloses(Combined(order, data, share))
    decreases |order|
  {
    if order != [] {
      var pre, ticker := order[..|order| - 1], order[|order| - 1];
      var s := Download(data, ticker);
      assert ticker in order;
      CombinedPositive(pre, data, share);
      if s != [] {
        ScaleKeepsPriceSeries(s, share(ticker));
        AddAlignedPositive(Combined(pre, data, share), Scale(s, share(ticker)));
      }
    }
  }

  /** The result of a successful aggregation: a sorted series over the days some ticker
      traded, valued on each day by the weighted sum of the closes. */
  lemma PortfolioPriceSpec(p: Weights, order: seq<string>, data: Downloads)
    requires ListsKeys(p, order) && AllIncreasing(data)
    requires WeightTotal(p, order) != 0.0
    ensures PortfolioPrice(p, order, data).Ok?
    ensures Increasing(PortfolioPrice(p, order, data).value)
    ensures DatesOf(PortfolioPrice(p, order, data).value) == TradingDays(data, order)
    ensures forall d :: ValueAt(PortfolioPrice(p, order, data).value, d) ==
                        WeightedSumAt(order, data, Shares(p, WeightTotal(p, order)), d)
  {
    CombinedSpec(order, data, Shares(p, WeightTotal(p, order)));
  }

  lemma {:induction false} WeightTotalPositive(p: Weights, order: seq<string>)
    requires PositiveWeights(p) && forall t :: t in order ==> t in p
    ensures WeightTotal(p, order) >= 0.0
    ensures order != [] ==> WeightTotal(p, order) > 0.0
    decreases |order|
  {
    if order != [] {
      assert order[|order| - 1] in order;
      WeightTotalPositive(p, order[..|order| - 1]);
    }
  }

  /** A non-empty portfolio of positive weights over price series succeeds and yields a
      price series: sorted dates, positive closes. */
  lemma PortfolioPriceIsPriceSeries(p: Weights, order: seq<string>, data: Downloads)
    requires ListsKeys(p, order) && PositiveWeights(p) && p != map[]
    requires forall t :: t in data ==> IsPriceSeries(data[t])
    ensures PortfolioPrice(p, order, data).Ok?
    ensures IsPriceSeries(PortfolioPrice(p, order, data).value)
  {
    var t0 :| t0 in p;
    assert t0 in order;
    WeightTotalPositive(p, order);
    var total := WeightTotal(p, order);
    CombinedDates(order, data, Shares(p, total));
    CombinedPositive(order, data, Shares(p, total));
  }

  /** A non-empty portfolio submitted on the portfolio page can be backtested: pricing it
      over downloaded price series succeeds and yields a price series. */
  lemma SubmittedPortfolioIsPriced(b: Builder, name: string, order: seq<string>, data: Downloads)
    requires b.Valid() && name in b.library && b.library[name] != map[]
    requires ListsKeys(b.library[name], order)
    requires forall t :: t in data ==> IsPriceSeries(data[t])
    ensures PortfolioPrice(b.library[name], order, data).Ok?
    ensures IsPriceSeries(PortfolioPrice(b.library[name], order, data).value)
  {
    PortfolioPriceIsPriceSeries(b.library[name], order, data);
  }

  // ---------------------------------------------------------------------------
  // Normalised weights

  lemma {:induction false} SharesSum(p: Weights, order: seq<string>, total: real)
    requires total != 0.0
    ensures SumOver(order, Shares(p, total)) == WeightTotal(p, order) / total
    decreases |order|
  {
    if order != [] {
      SharesSum(p, order[..|order| - 1], total);
    }
  }

  /** The normalised weights sum to 1. */
  lemma SharesSumToOne(p: Weights, order: seq<string>)
    requires WeightTotal(p, order) != 0.0
    ensures SumOver(order, Shares(p, WeightTotal(p, order))) == 1.0
  {
    SharesSum(p, order, WeightTotal(p, order));
  }

  lemma {:induction false} UniformCloseSum(order: seq<string>, data: Downloads, share: string -> real, d: Date, c: real)
    requires forall t :: t in order ==> ValueAt(Download(data, t), d) == c
    ensures WeightedSumAt(order, data, share, d) == c * SumOver(order, share)
    decreases |order|
  {
    if order != [] {
      var pre, ticker := order[..|order| - 1], order[|order| - 1];
      UniformCloseSum(pre, data, share, d, c);
      assert ticker in order;
      assert c * SumOver(order, share) == c * SumOver(pre, share) + c * share(ticker);
    }
  }

  /** On a day when every ticker closes at the same price c, the portfolio closes at c. */
  lemma UniformCloseIsKept(p: Weights, order: seq<string>, data: Downloads, d: Date, c: real)
    requires ListsKeys(p, order) && AllIncreasing(data)
    requires WeightTotal(p, order) != 0.0
    requires forall t :: t in order ==> CloseOn(Download(data, t), d) == Some(c)
    ensures ValueAt(PortfolioPrice(p, order, data).value, d) == c
  {
    var share := Shares(p, WeightTotal(p, order));
    PortfolioPriceSpec(p, order, data);
    UniformCloseSum(order, data, share, d, c);
    SharesSumToOne(p, order);
  }

  // ---------------------------------------------------------------------------
  // Invariance under rescaling the weights, and the one-ticker portfolio

  /** The aggregation reads the shares only at the tickers of `order`. */
  lemma {:induction false} CombinedCongruence(order: seq<string>, data: Downloads, s1: string -> real, s2: string -> real)
    requires forall t :: t in order ==> s1(t) == s2(t)
    ensures Combined(order, data, s1) == Combined(order, data, s2)
    decreases |order|
  {
    if order != [] {
      assert order[|order| - 1] in order;
      CombinedCongruence(order[..|order| - 1], data, s1, s2);
    }
  }

  function ScaledWeights(p: Weights, k: real): (r: Weights)
    ensures r.Keys == p.Keys
  {
    map t | t in p :: p[t] * k
  }

  lemma {:induction false} WeightTotalScales(p: Weights, order: seq<string>, k: real)
    ensures WeightTotal(ScaledWeights(p, k), order) == k * WeightTotal(p, order)
    decreases |order|
  {
    if order != [] {
      WeightTotalScales(p, order[..|order| - 1], k);
    }
  }

  lemma PortfolioPriceUnfold(p: Weights, order: seq<string>, data: Downloads)
    requires ListsKeys(p, order) && WeightTotal(p, order) != 0.0
    ensures PortfolioPrice(p, order, data) == Ok(Combined(order, data, Shares(p, WeightTotal(p, order))))
  {
  }

  /** A scaled weight over the equally scaled total is the original share. */
  lemma ScaledShare(p: Weights, k: real, total: real, t: string)
    requires k != 0.0 && total != 0.0
    ensures Shares(ScaledWeights(p, k), k * total)(t) == Shares(p, total)(t)
  {
    CancelFactor(1.0, k, total);
    if t in p {
      assert ScaledWeights(p, k)[t] == p[t] * k;
      CancelFactor(p[t], k, total);
    }
  }

  lemma CancelFactor(x: real, k: real, total: real)
    requires k != 0.0 && total != 0.0
    ensures k * total != 0.0
    ensures (x * k) / (k * total) == x / total
  {
    var q := x / total;
    assert q * total == x;
    assert q * (k * total) == x * k;
  }

  /** Multiplying every weight by the same non-zero factor ({A: 30, B: 70} against
      {A: 3, B: 7}) leaves the portfolio series unchanged. */
  lemma WeightScaleInvariance(p: Weights, order: seq<string>, data: Downloads, k: real)
    requires ListsKeys(p, order) && k != 0.0
    ensures ListsKeys(ScaledWeights(p, k), order)
    ensures PortfolioPrice(ScaledWeights(p, k), order, data) == PortfolioPrice(p, order, data)
  {
    WeightTotalScales(p, order, k);
    var q, total := ScaledWeights(p, k), WeightTotal(p, order);
    assert ListsKeys(q, order);
    if total != 0.0 {
      CancelFactor(1.0, k, total);
      ScaledSharesCombine(p, order, data, k, total);
      assert WeightTotal(q, order) == k * total;
      PortfolioPriceUnfold(q, order, data);
      PortfolioPriceUnfold(p, order, data);
      assert PortfolioPrice(q, order, data) == Ok(Combined(order, data, Shares(q, k * total)));
      assert PortfolioPrice(p, order, data) == Ok(Combined(order, data, Shares(p, total)));
    } else if NoData(data, order) {
      CombinedWithoutData(order, data, Shares(p, total));
      CombinedWithoutData(order, data, Shares(q, k * total));
    }
  }

  lemma ScaledSharesCombine(p: Weights, order: seq<string>, data: Downloads, k: real, total: real)
    requires k != 0.0 && total != 0.0
    ensures Combined(order, data, Shares(ScaledWeights(p, k), k * total)) == Combined(order, data, Shares(p, total))
  {
    forall t | t in order ensures Shares(ScaledWeights(p, k), k * total)(t) == Shares(p, total)(t) {
      ScaledShare(p, k, total, t);
    }
    CombinedCongruence(order, data, Shares(ScaledWeights(p, k), k * total), Shares(p, total));
  }

  /** A one-ticker portfolio of any non-zero weight is priced exactly as that ticker. */
  lemma SingleTicker(ticker: string, w: real, data: Downloads)
    requires w != 0.0
    ensures ListsKeys(map[ticker := w], [ticker])
    ensures PortfolioPrice(map[ticker := w], [ticker], data) == Ok(Download(data, ticker))
  {
    var order := [ticker];
    var p := map[ticker := w];
    assert order[..0] == [];
    assert WeightTotal(p, order) == SumOver([], WeightOf(p)) + WeightOf(p)(ticker);
    assert WeightTotal(p, order) == w;
    assert w / w == 1.0;
    assert Shares(p, w)(ticker) == 1.0;
    ScaleByOne(Download(data, ticker));
    assert Combined(order, data, Shares(p, w)) == Download(data, ticker);
  }
}
