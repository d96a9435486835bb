/** Two behaviours of `calculate` that follow from its code rather than
    from the tax rules: the panic of `Pool::sell` on an empty pool once a
    later acquisition has matched the whole disposal, and an acquisition
    earlier on the day of a disposal that is both pooled and matched. */
module EdgeCasesExample {
  import opened Wrappers
  import opened Calendar
  import opened Trades
  import opened Prices
  import opened Pooling
  import opened Sorting
  import opened TaxReports
  import opened Cgt
  import opened ExampleTrades

  /** One unit sold for 1,000 GBP with nothing held, then bought back the
      next day for 1,000 GBP. */
  function EarlySell(asset: Currency): Trade {
    TestTrade(LateOn(2018, 5, 1), Sell, Money(1.0, asset), Money(1000.0, GBP), 1000.0)
  }

  function BuyBack(asset: Currency): Trade {
    TestTrade(LateOn(2018, 5, 2), Buy, Money(1000.0, GBP), Money(1.0, asset), 1000.0)
  }

  /** The buy-back matches all of the sale, which leaves a sale of nothing
      from an empty pool: `Pool::sell` takes its proportional branch and
      divides by a total of zero. */
  lemma EmptyPoolDivisionByZero(asset: Currency, index: Prices)
    requires asset != GBP
    ensures CalculateSpec([EarlySell(asset), BuyBack(asset)], index) == Failure(DivisionByZero)
  {
    var trades := [EarlySell(asset), BuyBack(asset)];
    var s, b := EarlySell(asset), BuyBack(asset);
    assert IsCandidate(b, s) && !IsCandidate(s, s);
    assert Candidates([b], s) == [b];
    assert Candidates(trades, s) == [b];
    var m := Matching(map[], 1.0, 0.0);
    var m' := Matching(map[Key(b) := 0.0], 0.0, 1000.0);
    assert GetPrice(b, index).value.rate == 1000.0;
    assert MatchOne(b, m, index) == Success(m');
    assert MatchAll([b], m, index) == Success(m');
    assert !SaleDefined(PoolOf(map[], asset), 0.0);
    var price := Price(CurrencyPair(asset, GBP), s.dateTime, 1000.0);
    assert GetPrice(s, index) == Some(price);
    assert Acquire(map[], map[], s, price) == Acquisition(map[], None);
    assert Dispose(trades, map[], map[], s, index) == Failure(DivisionByZero);
    assert Step(trades, s, Start, index) == Failure(DivisionByZero);
    RunFromFails(trades, 0, Start, DivisionByZero, index);
    assert SortedBy(trades, TradeTime);
    SortByKeepsSorted(trades, TradeTime);
  }

  /** One unit bought at 09:00 for 1,000 GBP, sold the same evening for
      1,500 GBP. */
  function MorningBuy(asset: Currency): Trade {
    TestTrade(DateTime(Date(2018, 5, 1), 32_400_000_000_000), Buy, Money(1000.0, GBP), Money(1.0, asset), 1000.0)
  }

  function EveningSell(asset: Currency): Trade {
    TestTrade(LateOn(2018, 5, 1), Sell, Money(1.0, asset), Money(1500.0, GBP), 1500.0)
  }

  /** The replay of the two trades of one day. */
  lemma SameDayRun(asset: Currency, index: Prices) returns (st: Run)
    requires asset != GBP
    ensures RunFrom([MorningBuy(asset), EveningSell(asset)], 0, Start, index) == Success(st)
    ensures st.pools == map[asset := PoolState(asset, 1.0, 1000.0)]
    ensures |st.disposals| == 2 && st.disposals[0].taxYear == 2019 && st.disposals[1].taxYear == 2019
    ensures st.disposals[1].allowableCosts == 1000.0 && st.disposals[1].sellValue == 1500.0 && st.disposals[1].feeValue == 0.0
  {
    var trades := [MorningBuy(asset), EveningSell(asset)];
    var b, s := MorningBuy(asset), EveningSell(asset);
    var full := PoolState(asset, 1.0, 1000.0);
    var buyPrice := Price(CurrencyPair(asset, GBP), b.dateTime, 1000.0);
    assert GetPrice(b, index) == Some(buyPrice);
    assert Acquire(map[], map[], b, buyPrice) == Acquisition(map[asset := full], Some(full));
    var bought := Disposed(map[asset := full], map[], 0.0, None);
    assert Dispose(trades, map[asset := full], map[], b, index) == Success(bought);
    var r := Record(b, buyPrice, Some(full), bought);
    assert Start.disposals + [r] == [r];
    var st1 := Run(map[asset := full], map[], [r]);
    assert Step(trades, b, Start, index) == Success(st1);
    assert UkTaxYear(b.dateTime) == 2019;

    assert IsCandidate(b, s) && !IsCandidate(s, s);
    assert Candidates([s], s) == [];
    assert Candidates(trades, s) == [b];
    var m := Matching(map[], 1.0, 0.0);
    var m' := Matching(map[Key(b) := 0.0], 0.0, 1000.0);
    assert MatchOne(b, m, index) == Success(m');
    assert MatchAll([b], m, index) == Success(m');
    assert Sold(full, 0.0) == Sale(full, 0.0);
    var price := Price(CurrencyPair(asset, GBP), s.dateTime, 1500.0);
    assert GetPrice(s, index) == Some(price);
    assert Acquire(st1.pools, st1.special, s, price) == Acquisition(st1.pools, None);
    var sold := Disposed(map[asset := full], m'.special, 1000.0, Some(full));
    assert st1.pools[asset := full] == map[asset := full];
    assert Dispose(trades, st1.pools, st1.special, s, index) == Success(sold);
    var d := Record(s, price, None, sold);
    st := Run(sold.pools, sold.special, st1.disposals + [d]);
    assert Step(trades, s, st1, index) == Success(st);
    assert UkTaxYear(s.dateTime) == 2019;
    RunTwo(trades, Start, st1, st, index);
  }

  /** Both records fall in tax year 2019. */
  lemma SameDayYear(asset: Currency, index: Prices) returns (st: Run)
    requires asset != GBP
    ensures RunFrom([MorningBuy(asset), EveningSell(asset)], 0, Start, index) == Success(st)
    ensures st.pools == map[asset := PoolState(asset, 1.0, 1000.0)]
    ensures InYear(st.disposals, 2019) == st.disposals && |st.disposals| == 2
    ensures st.disposals[1].allowableCosts == 1000.0 && st.disposals[1].Gain() == 500.0
  {
    st := SameDayRun(asset, index);
    YearOfSuffix([], st.disposals, 2019);
    assert [] + st.disposals == st.disposals;
  }

  /** The morning's unit enters the pool and is also matched against the
      evening's sale: the sale's allowable costs are the whole 1,000 GBP the
      unit cost, and the pool still holds that unit at that cost after it
      was sold. */
  lemma SameDayBuyPooledAndMatched(asset: Currency, index: Prices) returns (report: TaxReport)
    requires asset != GBP
    ensures CalculateSpec([MorningBuy(asset), EveningSell(asset)], index) == Success(report)
    ensures report.pools == map[asset := PoolState(asset, 1.0, 1000.0)]
    ensures 2019 in report.years && |report.years[2019].disposals| == 2
    ensures report.years[2019].disposals[1].allowableCosts == 1000.0
    ensures report.years[2019].disposals[1].Gain() == 500.0
  {
    var trades := [MorningBuy(asset), EveningSell(asset)];
    assert SortedBy(trades, TradeTime);
    var st := SameDayYear(asset, index);
    ReportOf(trades, index, st);
    report := TaxReport(trades, Buckets(st.disposals), st.pools);
  }
}
