/** The portfolio page: a portfolio under construction (ticker -> weight) that tickers
    are added to and removed from, and a library of named, submitted portfolios. */
module PortfolioBuilder {

  /** Relative weights by ticker symbol. */
  type Weights = map<string, real>

  /** No ticker symbol is the empty string. */
  predicate NamedTickers(m: Weights) {
    forall t :: t in m ==> t != ""
  }

  predicate PositiveWeights(m: Weights) {
    forall t :: t in m ==> m[t] > 0.0
  }

  /** `add_ticker_portfolio`: a non-empty ticker with a non-zero weight is inserted with that
      weight, or its weight grows by it if present; anything else leaves the map as it was. */
  function WithTicker(m: Weights, ticker: string, weight: real): (r: Weights)
    ensures ticker == "" || weight == 0.0 ==> r == m
    ensures ticker != "" && weight != 0.0 && ticker !in m ==> ticker in r && r[ticker] == weight
    ensures ticker != "" && weight != 0.0 && ticker in m ==> ticker in r && r[ticker] == m[ticker] + weight
    ensures forall t :: t != ticker ==> (t in r <==> t in m)
    ensures forall t :: t != ticker && t in m ==> r[t] == m[t]
    ensures NamedTickers(m) ==> NamedTickers(r)
    ensures PositiveWeights(m) && weight >= 0.0 ==> PositiveWeights(r)
  {
    if ticker != "" && weight != 0.0 then
      if ticker !in m then m[ticker := weight] else m[ticker := m[ticker] + weight]
    else m
  }

  /** `remove_ticker_portfolio`: the ticker's entry disappears and every other entry stays. */
  function WithoutTicker(m: Weights, ticker: string): (r: Weights)
    ensures ticker !in r
    ensures r.Keys == m.Keys - {ticker}
    ensures forall t :: t in r ==> r[t] == m[t]
    ensures ticker !in m ==> r == m
    ensures NamedTickers(m) ==> NamedTickers(r)
  {
    m - {ticker}
  }

  /** Removing a ticker that was just added to a map without it gives the map back. */
  lemma AddThenRemove(m: Weights, ticker: string, weight: real)
    requires ticker !in m
    ensures WithoutTicker(WithTicker(m, ticker, weight), ticker) == m
  {
    assert WithoutTicker(WithTicker(m, ticker, weight), ticker).Keys == m.Keys;
  }

  /** Adding the same ticker twice accumulates the two weights. The one exception is a new
      ticker whose two non-zero weights cancel: it stays in the map with weight 0, where one
      add of the sum 0 leaves the map as it was. */
  lemma AddTwiceAccumulates(m: Weights, ticker: string, w1: real, w2: real)
    requires !(ticker != "" && ticker !in m && w1 != 0.0 && w2 != 0.0 && w1 + w2 == 0.0)
    ensures WithTicker(WithTicker(m, ticker, w1), ticker, w2) == WithTicker(m, ticker, w1 + w2)
  {
  }

  class Builder {
    /** The portfolio being edited (`st.session_state['portfolio_temp']`). */
    var temp: Weights
    /** Submitted portfolios by name (`st.session_state['portfolio']`). */
    var library: map<string, Weights>

    /** Every portfolio on the page, edited or submitted, has named tickers with positive
        weights: the weight widget does not go below 0 and a weight of 0 is never stored. */
    ghost predicate Valid()
      reads this
    {
      NamedTickers(temp) && PositiveWeights(temp) &&
      forall name :: name in library ==> NamedTickers(library[name]) && PositiveWeights(library[name])
    }

    constructor ()
      ensures Valid()
      ensures temp == map[] && library == map[]
    {
      temp := map[];
      library := map[];
    }

    /** The weight comes from a number input whose minimum is 0. */
    method AddTicker(ticker: string, weight: real)
      requires Valid() && weight >= 0.0
      modifies this
      ensures Valid()
      ensures temp == WithTicker(old(temp), ticker, weight)
      ensures library == old(library)
    {
      if ticker != "" && weight != 0.0 {
        if ticker !in temp {
          temp := temp[ticker := weight];
        } else {
          temp := temp[ticker := temp[ticker] + weight];
        }
      }
    }

    /** Reports whether the ticker was there to remove (the success or error message). */
    method RemoveTicker(ticker: string) returns (removed: bool)
      requires Valid()
      modifies this
      ensures Valid()
      ensures removed <==> ticker in old(temp)
      ensures temp == WithoutTicker(old(temp), ticker)
      ensures library == old(library)
    {
      if ticker in temp {
        temp := temp - {ticker};
        removed := true;
      } else {
        removed := false;
      }
    }

    /** The submit button: a fresh name files the edited portfolio under that name and starts
        an empty one; a name already in the library is refused and nothing changes. */
    method Submit(name: string) returns (accepted: bool)
      requires Valid()
      modifies this
      ensures Valid()
      ensures accepted <==> name !in old(library)
      ensures accepted ==> library == old(library)[name := old(temp)] && temp == map[]
      ensures !accepted ==> library == old(library) && temp == old(temp)
    {
      if name in library {
        accepted := false;
      } else {
        library := library[name := temp];
        temp := map[];
        accepted := true;
      }
    }
  }
}
