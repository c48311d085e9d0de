/** The portfolio's dictionary may yield its tickers in any order: the weight total and
    the weighted series come out the same for every listing of the keys without repeats. */
module IterationOrder {
  import opened Series
  import opened PortfolioBuilder
  import opened WeightedPrice

  /** `order` lists every ticker of the portfolio exactly once: the order in which the
      portfolio's dictionary is iterated. */
  predicate IsKeyOrder(p: Weights, order: seq<string>) {
    Distinct(order) && ListsKeys(p, order)
  }

  /** Taking the j-th entry out of a sum and adding it back. */
  lemma {:induction false} SumOverRemove(s: seq<string>, j: nat, f: string -> real)
    requires j < |s|
    ensures SumOver(s, f) == SumOver(s[..j] + s[j + 1..], f) + f(s[j])
    decreases |s|
  {
    var n := |s|;
    if j < n - 1 {
      var pre := s[..n - 1];
      SumOverRemove(pre, j, f);
      var s' := s[..j] + s[j + 1..];
      assert s'[..|s'| - 1] == pre[..j] + pre[j + 1..];
      assert s'[|s'| - 1] == s[n - 1];
    } else {
      assert s[..j] + s[j + 1..] == s[..n - 1];
    }
  }

  /** No ticker is listed twice. */
  predicate Distinct(s: seq<string>) {
    forall i, j :: 0 <= i < j < |s| ==> s[i] != s[j]
  }

  /** Dropping the j-th entry of a list without repeats leaves a list without repeats that
      holds exactly the other entries. */
  lemma RemoveAt(s: seq<string>, j: nat)
    requires Distinct(s) && j < |s|
    ensures Distinct(s[..j] + s[j + 1..])
    ensures forall t :: t in s[..j] + s[j + 1..] <==> t in s && t != s[j]
  {
    var r := s[..j] + s[j + 1..];
    forall a, b | 0 <= a < b < |r| ensures r[a] != r[b] {
      var a' := if a < j then a else a + 1;
      var b' := if b < j then b else b + 1;
      assert r[a] == s[a'] && r[b] == s[b'];
    }
    forall t ensures t in r <==> t in s && t != s[j] {
      if t in r {
        var b :| 0 <= b < |r| && r[b] == t;
        if b < j { assert s[b] == t; } else { assert s[b + 1] == t; }
      }
      if t in s && t != s[j] {
        var b :| 0 <= b < |s| && s[b] == t;
        if b < j { assert r[b] == t; } else { assert r[b - 1] == t; }
      }
    }
  }

  lemma FirstIsMember(s: seq<string>)
    requires s != []
    ensures s[0] in s
  {
  }

  /** A sum over tickers does not depend on the order they are listed in. */
  lemma {:induction false} SumOverPermutation(o1: seq<string>, o2: seq<string>, f: string -> real)
    requires Distinct(o1) && Distinct(o2)
    requires forall t :: t in o1 <==> t in o2
    ensures SumOver(o1, f) == SumOver(o2, f)
    decreases |o1|
  {
    if o1 == [] {
      if o2 != [] {
        FirstIsMember(o2);
        assert false;
      }
    } else {
      var n := |o1|;
      var x := o1[n - 1];
      assert x in o2;
      var j :| 0 <= j < |o2| && o2[j] == x;
      SumOverRemove(o2, j, f);
      RemoveAt(o2, j);
      RemoveAt(o1, n - 1);
      var o1', o2' := o1[..n - 1], o2[..j] + o2[j + 1..];
      assert o1[..n - 1] + o1[n - 1 + 1..] == o1';
      forall t ensures t in o1' <==> t in o2' {
        assert t in o1 <==> t in o2;
      }
      SumOverPermutation(o1', o2', f);
    }
  }

  /** Whatever order the portfolio's dictionary yields its tickers in, the result is the same. */
  lemma OrderIndependence(p: Weights, o1: seq<string>, o2: seq<string>, data: Downloads)
    requires IsKeyOrder(p, o1) && IsKeyOrder(p, o2) && AllIncreasing(data)
    ensures PortfolioPrice(p, o1, data) == PortfolioPrice(p, o2, data)
  {
    SumOverPermutation(o1, o2, WeightOf(p));
    var total := WeightTotal(p, o1);
    var share := Shares(p, total);
    if total != 0.0 {
      var a, b := Combined(o1, data, share), Combined(o2, data, share);
      CombinedSpec(o1, data, share);
      CombinedSpec(o2, data, share);
      forall d ensures d in TradingDays(data, o1) <==> d in TradingDays(data, o2) {
        TradingDaysMembership(data, o1, d);
        TradingDaysMembership(data, o2, d);
      }
      forall d ensures ValueAt(a, d) == ValueAt(b, d) {
        SumOverPermutation(o1, o2, ContributionOn(data, share, d));
      }
      SeriesExtensionality(a, b);
    } else {
      NoDataMembership(data, o1);
      NoDataMembership(data, o2);
      if !NoData(data, o1) {
        var t :| t in o1 && Download(data, t) != [];
        assert t in o2;
      }
      if !NoData(data, o2) {
        var t :| t in o2 && Download(data, t) != [];
        assert t in o1;
      }
      if NoData(data, o1) {
        CombinedWithoutData(o1, data, share);
        CombinedWithoutData(o2, data, share);
      }
    }
  }
}
