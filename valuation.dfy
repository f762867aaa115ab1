/**
 * The arithmetic of `portfolio_data`: aggregate one symbol's sanitised
 * holdings into a position, then value it against the latest close of a
 * price series.
 */
module Valuation {
  import opened Wrappers
  import opened Sanitizer

  /** `load_and_sanitize_portfolio`: a table that could not be read gives no holdings. */
  function LoadPortfolio(read: Option<Table>): (r: seq<Holding>)
    ensures forall k :: 0 <= k < |r| ==> IsClean(r[k])
    ensures read.None? ==> r == []
    ensures read.Some? ==> r == Sanitize(read.value)
  {
    match read
    case None => []
    case Some(t) => Sanitize(t)
  }

  /** The holdings whose symbol is exactly `symbol`, in order. */
  function Matching(symbol: string, hs: seq<Holding>): (r: seq<Holding>)
    ensures |r| <= |hs|
    ensures forall k :: 0 <= k < |r| ==> r[k].symbol == symbol
  {
    if hs == [] then []
    else (if hs[0].symbol == symbol then [hs[0]] else []) + Matching(symbol, hs[1..])
  }

  /** Sum of the share counts. */
  function SumShares(hs: seq<Holding>): real
  {
    if hs == [] then 0.0 else hs[0].shares + SumShares(hs[1..])
  }

  /** Sum of shares times price: the total cost basis. */
  function SumCost(hs: seq<Holding>): real
  {
    if hs == [] then 0.0 else hs[0].shares * hs[0].price + SumCost(hs[1..])
  }

  /** Python's `int(x)` on a float: truncation toward zero. */
  function TruncateToInt(x: real): (r: int)
    ensures 0.0 <= x ==> 0 <= r && r as real <= x < r as real + 1.0
    ensures x < 0.0 ==> r <= 0 && r as real - 1.0 < x <= r as real
  {
    if x >= 0.0 then x.Floor else -((-x).Floor)
  }

  /** A symbol's aggregate position, or none when the truncated total is zero. */
  datatype Position = NoShares | Position(totalShares: int, avgCost: real)

  /**
   * The aggregation step: the total is the truncated sum of the matching
   * shares, and the average cost is the cost basis divided by that truncated
   * total.
   */
  function Aggregate(symbol: string, portfolio: seq<Holding>): (r: Position)
    ensures r.NoShares? <==> TruncateToInt(SumShares(Matching(symbol, portfolio))) == 0
    ensures r.Position? ==> r.totalShares == TruncateToInt(SumShares(Matching(symbol, portfolio)))
    ensures r.Position? ==> r.avgCost * r.totalShares as real == SumCost(Matching(symbol, portfolio))
  {
    var trades := Matching(symbol, portfolio);
    var totalShares := TruncateToInt(SumShares(trades));
    if totalShares == 0 then NoShares
    else Position(totalShares, SumCost(trades) / totalShares as real)
  }

  /** What `portfolio_data` answers. `NoSharesInPortfolio` reports a total of 0. */
  datatype PortfolioResult =
    | NoSharesInPortfolio(symbol: string)
    | NoPriceData(symbol: string)
    | Metrics(symbol: string, totalShares: int, avgCost: real, currentPrice: real,
              equity: real, pnl: real, roiPercent: Option<real>)

  /**
   * The valuation step: an empty close series gives the no-price variant;
   * otherwise the last close is the current price, profit and loss is equity
   * minus what the position cost at the average price, and ROI is absent
   * exactly when the average cost is zero.
   */
  function Valuate(symbol: string, totalShares: int, avgCost: real, closes: seq<real>): (r: PortfolioResult)
    ensures closes == [] <==> r == NoPriceData(symbol)
    ensures closes != [] ==> r.Metrics?
    ensures !r.NoSharesInPortfolio?
    ensures r.Metrics? ==> r.symbol == symbol && r.totalShares == totalShares && r.avgCost == avgCost
    ensures r.Metrics? ==> r.currentPrice == closes[|closes| - 1]
    ensures r.Metrics? ==> r.equity == totalShares as real * r.currentPrice
    ensures r.Metrics? ==> r.pnl == r.equity - avgCost * totalShares as real
    ensures r.Metrics? ==> (r.roiPercent.None? <==> avgCost == 0.0)
    ensures r.Metrics? && r.roiPercent.Some? ==> r.roiPercent.value * avgCost == (r.currentPrice - avgCost) * 100.0
  {
    if closes == [] then NoPriceData(symbol)
    else
      var price := closes[|closes| - 1];
      var equity := totalShares as real * price;
      var pnl := (price - avgCost) * totalShares as real;
      var roi := if avgCost != 0.0 then Some((price - avgCost) / avgCost * 100.0) else None;
      Metrics(symbol, totalShares, avgCost, price, equity, pnl, roi)
  }

  /** `portfolio_data` given the loaded holdings and the fetched close series. */
  function PortfolioData(symbol: string, portfolio: seq<Holding>, closes: seq<real>): (r: PortfolioResult)
    ensures r.NoSharesInPortfolio? <==> Aggregate(symbol, portfolio).NoShares?
    ensures r.NoSharesInPortfolio? ==> r.symbol == symbol
    ensures Aggregate(symbol, portfolio).Position? ==>
      r == Valuate(symbol, Aggregate(symbol, portfolio).totalShares, Aggregate(symbol, portfolio).avgCost, closes)
  {
    match Aggregate(symbol, portfolio)
    case NoShares => NoSharesInPortfolio(symbol)
    case Position(totalShares, avgCost) => Valuate(symbol, totalShares, avgCost, closes)
  }

  // ---------------------------------------------------------------------
  // Properties
  // ---------------------------------------------------------------------

  /**
   * The matching rows are exactly the holdings with that symbol, each as many
   * times as it occurs: the mask keeps duplicate lots.
   */
  lemma {:induction false} MatchingSelectsSymbol(symbol: string, hs: seq<Holding>)
    ensures forall h :: h in Matching(symbol, hs) <==> h in hs && h.symbol == symbol
    ensures forall h :: multiset(Matching(symbol, hs))[h] == if h.symbol == symbol then multiset(hs)[h] else 0
  {
    if hs != [] {
      MatchingSelectsSymbol(symbol, hs[1..]);
      assert hs == [hs[0]] + hs[1..];
      assert multiset(hs) == multiset([hs[0]]) + multiset(hs[1..]);
      var head := if hs[0].symbol == symbol then [hs[0]] else [];
      assert multiset(Matching(symbol, hs)) == multiset(head) + multiset(Matching(symbol, hs[1..]));
    }
  }

  lemma {:induction false} MatchingIdempotent(symbol: string, hs: seq<Holding>)
    ensures Matching(symbol, Matching(symbol, hs)) == Matching(symbol, hs)
  {
    if hs != [] {
      MatchingIdempotent(symbol, hs[1..]);
      if hs[0].symbol == symbol {
        var m := Matching(symbol, hs);
        assert m == [hs[0]] + Matching(symbol, hs[1..]);
        assert m[0] == hs[0] && m[1..] == Matching(symbol, hs[1..]);
        calc {
          Matching(symbol, m);
          [m[0]] + Matching(symbol, m[1..]);
          [hs[0]] + Matching(symbol, Matching(symbol, hs[1..]));
          [hs[0]] + Matching(symbol, hs[1..]);
          m;
        }
      } else {
        assert Matching(symbol, hs) == Matching(symbol, hs[1..]);
      }
    }
  }

  /** Only rows whose symbol equals the requested one take part in the result. */
  lemma OnlyMatchingRowsCount(symbol: string, portfolio: seq<Holding>, closes: seq<real>)
    ensures PortfolioData(symbol, Matching(symbol, portfolio), closes) == PortfolioData(symbol, portfolio, closes)
  {
    MatchingIdempotent(symbol, portfolio);
  }

  /** Appending a holding extends the selection by that holding exactly when its symbol matches. */
  lemma {:induction false} MatchingAppend(symbol: string, hs: seq<Holding>, h: Holding)
    ensures Matching(symbol, hs + [h]) == Matching(symbol, hs) + (if h.symbol == symbol then [h] else [])
  {
    if hs != [] {
      assert (hs + [h])[1..] == hs[1..] + [h];
      MatchingAppend(symbol, hs[1..], h);
    } else {
      assert hs + [h] == [h];
    }
  }

  /** Adding a holding of another symbol does not change the answer. */
  lemma OtherSymbolIgnored(symbol: string, portfolio: seq<Holding>, h: Holding, closes: seq<real>)
    requires h.symbol != symbol
    ensures PortfolioData(symbol, portfolio + [h], closes) == PortfolioData(symbol, portfolio, closes)
  {
    MatchingAppend(symbol, portfolio, h);
    assert Matching(symbol, portfolio) + [] == Matching(symbol, portfolio);
  }

  /**
   * A zero truncated total answers "no shares in portfolio" whatever the price
   * series holds, so the price is never looked up.
   */
  lemma NoSharesNeedsNoPrice(symbol: string, portfolio: seq<Holding>, closes: seq<real>, other: seq<real>)
    requires TruncateToInt(SumShares(Matching(symbol, portfolio))) == 0
    ensures PortfolioData(symbol, portfolio, closes) == NoSharesInPortfolio(symbol)
    ensures PortfolioData(symbol, portfolio, closes) == PortfolioData(symbol, portfolio, other)
  {
  }

  /** A symbol with no holdings at all has no shares. */
  lemma UnknownSymbolHasNoShares(symbol: string, portfolio: seq<Holding>, closes: seq<real>)
    requires forall k :: 0 <= k < |portfolio| ==> portfolio[k].symbol != symbol
    ensures PortfolioData(symbol, portfolio, closes) == NoSharesInPortfolio(symbol)
  {
    MatchingSelectsSymbol(symbol, portfolio);
  }

  lemma {:induction false} SumSharesPositive(hs: seq<Holding>)
    requires forall k :: 0 <= k < |hs| ==> hs[k].shares > 0.0
    ensures hs != [] ==> SumShares(hs) > 0.0
    ensures hs == [] ==> SumShares(hs) == 0.0
  {
    if hs != [] {
      SumSharesPositive(hs[1..]);
    }
  }

  lemma MatchingOfClean(symbol: string, hs: seq<Holding>)
    requires forall k :: 0 <= k < |hs| ==> IsClean(hs[k])
    ensures forall k :: 0 <= k < |Matching(symbol, hs)| ==> IsClean(Matching(symbol, hs)[k])
  {
    var m := Matching(symbol, hs);
    MatchingSelectsSymbol(symbol, hs);
    forall k | 0 <= k < |m| ensures IsClean(m[k]) {
      assert m[k] in hs;
    }
  }

  /**
   * Over sanitised holdings a position's total is positive, and the answer is
   * "no shares" exactly when the matching shares sum to less than one.
   */
  lemma SanitizedNoSharesIffBelowOne(symbol: string, portfolio: seq<Holding>)
    requires forall k :: 0 <= k < |portfolio| ==> IsClean(portfolio[k])
    ensures Aggregate(symbol, portfolio).Position? ==> Aggregate(symbol, portfolio).totalShares > 0
    ensures Aggregate(symbol, portfolio).NoShares? <==> SumShares(Matching(symbol, portfolio)) < 1.0
  {
    MatchingOfClean(symbol, portfolio);
    SumSharesPositive(Matching(symbol, portfolio));
  }

  lemma {:induction false} CostAtLeast(hs: seq<Holding>, lo: real)
    requires forall k :: 0 <= k < |hs| ==> hs[k].shares > 0.0 && lo <= hs[k].price
    ensures lo * SumShares(hs) <= SumCost(hs)
  {
    if hs != [] {
      CostAtLeast(hs[1..], lo);
      var h := hs[0];
      assert h.shares * (h.price - lo) >= 0.0;
    }
  }

  lemma {:induction false} CostAtMost(hs: seq<Holding>, hi: real)
    requires forall k :: 0 <= k < |hs| ==> hs[k].shares > 0.0 && hs[k].price <= hi
    ensures SumCost(hs) <= hi * SumShares(hs)
  {
    if hs != [] {
      CostAtMost(hs[1..], hi);
      var h := hs[0];
      assert h.shares * (hi - h.price) >= 0.0;
    }
  }

  lemma {:induction false} MatchingWithinPrices(symbol: string, hs: seq<Holding>, lo: real, hi: real)
    requires forall k :: 0 <= k < |hs| ==> hs[k].shares > 0.0
    requires forall k :: 0 <= k < |hs| && hs[k].symbol == symbol ==> lo <= hs[k].price <= hi
    ensures forall k :: 0 <= k < |Matching(symbol, hs)| ==>
      Matching(symbol, hs)[k].shares > 0.0 && lo <= Matching(symbol, hs)[k].price <= hi
  {
    if hs != [] {
      MatchingWithinPrices(symbol, hs[1..], lo, hi);
    }
  }

  lemma QuotientAtLeast(a: real, n: real, c: real, lo: real)
    requires n > 0.0 && a * n == c && lo * n <= c
    ensures lo <= a
  {
  }

  lemma QuotientAtMost(a: real, n: real, c: real, hi: real)
    requires n > 0.0 && a * n == c && c <= hi * n
    ensures a <= hi
  {
  }

  /**
   * When the matching shares add up to a whole number, the average cost is the
   * share-weighted mean price.
   */
  lemma WholeShareAverageIsWeightedMean(symbol: string, portfolio: seq<Holding>)
    requires Aggregate(symbol, portfolio).Position?
    requires SumShares(Matching(symbol, portfolio)) == Aggregate(symbol, portfolio).totalShares as real
    ensures Aggregate(symbol, portfolio).avgCost == SumCost(Matching(symbol, portfolio)) / SumShares(Matching(symbol, portfolio))
  {
  }

  /**
   * Over sanitised holdings with a whole-share total, the average cost lies
   * between the lowest and the highest price paid for the symbol.
   */
  lemma WholeShareAverageWithinPrices(symbol: string, portfolio: seq<Holding>, lo: real, hi: real)
    requires forall k :: 0 <= k < |portfolio| ==> portfolio[k].shares > 0.0
    requires forall k :: 0 <= k < |portfolio| && portfolio[k].symbol == symbol ==> lo <= portfolio[k].price <= hi
    requires Aggregate(symbol, portfolio).Position?
    requires SumShares(Matching(symbol, portfolio)) == Aggregate(symbol, portfolio).totalShares as real
    ensures lo <= Aggregate(symbol, portfolio).avgCost <= hi
  {
    var m := Matching(symbol, portfolio);
    MatchingWithinPrices(symbol, portfolio, lo, hi);
    WholeShareMean(symbol, portfolio);
    MeanWithinPrices(m, Aggregate(symbol, portfolio).avgCost, lo, hi);
  }

  /** `avg` is a price at which the holdings' shares would cost exactly their cost basis. */
  predicate IsMeanPrice(avg: real, hs: seq<Holding>)
  {
    avg * SumShares(hs) == SumCost(hs)
  }

  lemma WholeShareMean(symbol: string, portfolio: seq<Holding>)
    requires Aggregate(symbol, portfolio).Position?
    requires SumShares(Matching(symbol, portfolio)) == Aggregate(symbol, portfolio).totalShares as real
    ensures Matching(symbol, portfolio) != []
    ensures IsMeanPrice(Aggregate(symbol, portfolio).avgCost, Matching(symbol, portfolio))
  {
  }

  /** A mean price of holdings lies within the prices paid. */
  lemma MeanWithinPrices(hs: seq<Holding>, avg: real, lo: real, hi: real)
    requires forall k :: 0 <= k < |hs| ==> hs[k].shares > 0.0 && lo <= hs[k].price <= hi
    requires hs != [] && IsMeanPrice(avg, hs)
    ensures lo <= avg <= hi
  {
    SumSharesPositive(hs);
    MeanAtLeast(hs, avg, lo);
    MeanAtMost(hs, avg, hi);
  }

  lemma MeanAtLeast(hs: seq<Holding>, avg: real, lo: real)
    requires forall k :: 0 <= k < |hs| ==> hs[k].shares > 0.0 && lo <= hs[k].price
    requires SumShares(hs) > 0.0 && IsMeanPrice(avg, hs)
    ensures lo <= avg
  {
    CostAtLeast(hs, lo);
    QuotientAtLeast(avg, SumShares(hs), SumCost(hs), lo);
  }

  lemma MeanAtMost(hs: seq<Holding>, avg: real, hi: real)
    requires forall k :: 0 <= k < |hs| ==> hs[k].shares > 0.0 && hs[k].price <= hi
    requires SumShares(hs) > 0.0 && IsMeanPrice(avg, hs)
    ensures avg <= hi
  {
    CostAtMost(hs, hi);
    QuotientAtMost(avg, SumShares(hs), SumCost(hs), hi);
  }

  /**
   * With fractional totals the average divides by the truncated total, so it
   * is not the weighted mean: 1.5 shares bought at 10 report an average of 15.
   */
  lemma FractionalTotalInflatesAverage()
    ensures Aggregate("X", [Holding("X", 1.5, 10.0)]) == Position(1, 15.0)
    ensures SumCost([Holding("X", 1.5, 10.0)]) / SumShares([Holding("X", 1.5, 10.0)]) == 10.0
  {
    var hs := [Holding("X", 1.5, 10.0)];
    assert Matching("X", hs) == hs;
    assert SumShares(hs) == 1.5;
    assert TruncateToInt(1.5) == 1;
  }

  /** Profit and loss is equity minus the cost basis (at the truncated total). */
  lemma PnlIsEquityMinusCostBasis(symbol: string, portfolio: seq<Holding>, closes: seq<real>)
    requires PortfolioData(symbol, portfolio, closes).Metrics?
    ensures var r := PortfolioData(symbol, portfolio, closes);
      r.pnl == r.equity - SumCost(Matching(symbol, portfolio))
  {
  }

  /** With a positive average cost, ROI is positive exactly when the price is above it. */
  lemma RoiSign(symbol: string, totalShares: int, avgCost: real, closes: seq<real>)
    requires avgCost > 0.0 && closes != []
    ensures var r := Valuate(symbol, totalShares, avgCost, closes);
      r.roiPercent.Some? && (r.roiPercent.value > 0.0 <==> r.currentPrice > avgCost)
  {
    var r := Valuate(symbol, totalShares, avgCost, closes);
    var roi := r.roiPercent.value;
    assert roi * avgCost == (r.currentPrice - avgCost) * 100.0;
    if roi > 0.0 {
      assert roi * avgCost > 0.0;
    } else {
      assert roi * avgCost <= 0.0;
    }
  }

  /** The valued position from the project's tests: 10 FOO at 5, last close 7. */
  lemma SingleLotExample()
    ensures PortfolioData("FOO", [Holding("FOO", 10.0, 5.0)], [7.0]) ==
            Metrics("FOO", 10, 5.0, 7.0, 70.0, 20.0, Some(40.0))
  {
    var hs := [Holding("FOO", 10.0, 5.0)];
    assert Matching("FOO", hs) == hs;
    assert TruncateToInt(10.0) == 10;
  }

  /** Two identical lots both count: the total is 20 shares, not 10. */
  lemma DuplicateLotsBothCount()
    ensures Aggregate("X", [Holding("X", 10.0, 5.0), Holding("X", 10.0, 5.0)]) == Position(20, 5.0)
  {
    var h := Holding("X", 10.0, 5.0);
    var hs := [h, h];
    assert hs[1..] == [h] && [h][1..] == [];
    assert Matching("X", hs) == hs;
    assert SumShares([h]) == 10.0 && SumCost([h]) == 50.0;
    assert SumShares(hs) == 20.0;
    assert SumCost(hs) == 100.0;
    assert TruncateToInt(20.0) == 20;
  }

  /** Holdings but an empty close series: the no-price variant, not a metrics record. */
  lemma EmptySeriesExample()
    ensures PortfolioData("FOO", [Holding("FOO", 10.0, 5.0)], []) == NoPriceData("FOO")
  {
    var hs := [Holding("FOO", 10.0, 5.0)];
    assert Matching("FOO", hs) == hs;
    assert TruncateToInt(10.0) == 10;
  }

  /** An empty portfolio file: no shares, whatever the prices. */
  lemma EmptyPortfolioExample(closes: seq<real>)
    ensures PortfolioData("FOO", LoadPortfolio(Some(Table(true, true, true, []))), closes) == NoSharesInPortfolio("FOO")
  {
    assert LoadPortfolio(Some(Table(true, true, true, []))) == [];
  }
}
