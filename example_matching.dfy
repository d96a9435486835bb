/** Two disposals matched against one later acquisition within 30 days. */
module MatchingExample {
  import opened Wrappers
  import opened Calendar
  import opened Trades
  import opened Prices
  import opened Pooling
  import opened Sorting
  import opened TaxReports
  import opened Cgt
  import opened CgtFacts
  import opened ExampleTrades

  /** Two disposals within 30 days before one acquisition: 100 units bought
      for 100,000 GBP; 20 sold on 30 August and 20 more on 1 September, each
      for 40,000 GBP; 10 bought for 15,000 GBP on 11 September. */
  function Buy1(asset: Currency): Trade {
    TestTrade(LateOn(2018, 1, 1), Buy, Money(100000.0, GBP), Money(100.0, asset), 1000.0)
  }

  function Sell1(asset: Currency): Trade {
    TestTrade(LateOn(2018, 8, 30), Sell, Money(20.0, asset), Money(40000.0, GBP), 2000.0)
  }

  function Sell2(asset: Currency): Trade {
    TestTrade(LateOn(2018, 9, 1), Sell, Money(20.0, asset), Money(40000.0, GBP), 2000.0)
  }

  function Buy2(asset: Currency): Trade {
    TestTrade(LateOn(2018, 9, 11), Buy, Money(15000.0, GBP), Money(10.0, asset), 1500.0)
  }

  function TwoSellsTrades(asset: Currency): seq<Trade> {
    [Buy1(asset), Sell1(asset), Sell2(asset), Buy2(asset)]
  }

  /** Only the later acquisition lies within 30 days after either sale. */
  lemma SellCandidates(asset: Currency, sell: Trade)
    requires asset != GBP
    requires sell == Sell1(asset) || sell == Sell2(asset)
    ensures Candidates(TwoSellsTrades(asset), sell) == [Buy2(asset)]
  {
    assert IsCandidate(Buy2(asset), sell);
    assert !IsCandidate(Buy1(asset), sell);
    assert Candidates([Buy2(asset)], sell) == [Buy2(asset)];
    assert Candidates([Sell2(asset), Buy2(asset)], sell) == [Buy2(asset)];
    assert Candidates([Sell1(asset), Sell2(asset), Buy2(asset)], sell) == [Buy2(asset)];
  }

  lemma TwoSellsStep1(asset: Currency, index: Prices) returns (st: Run)
    requires asset != GBP
    ensures Step(TwoSellsTrades(asset), Buy1(asset), Start, index) == Success(st)
    ensures st.pools == map[asset := PoolState(asset, 100.0, 100000.0)] && st.special == map[]
    ensures |st.disposals| == 1 && st.disposals[0].taxYear == 2018
  {
    var pool := PoolState(asset, 100.0, 100000.0);
    var price := Price(CurrencyPair(asset, GBP), Buy1(asset).dateTime, 1000.0);
    assert GetPrice(Buy1(asset), index) == Some(price);
    assert Acquire(map[], map[], Buy1(asset), price) == Acquisition(map[asset := pool], Some(pool));
    var disposed := Disposed(map[asset := pool], map[], 0.0, None);
    assert Dispose(TwoSellsTrades(asset), map[asset := pool], map[], Buy1(asset), index) == Success(disposed);
    var d := Record(Buy1(asset), price, Some(pool), disposed);
    assert Start.disposals + [d] == [d];
    st := Run(disposed.pools, disposed.special, [d]);
    assert UkTaxYear(Buy1(asset).dateTime) == 2018;
  }

  /** The first sale matches all 10 asset of the later acquisition at 1,500 GBP
      each and takes the other 10 asset from the pool. */
  lemma TwoSellsStep2(asset: Currency, st: Run, index: Prices) returns (st': Run, d: Disposal)
    requires asset != GBP
    requires st.pools == map[asset := PoolState(asset, 100.0, 100000.0)] && st.special == map[]
    ensures Step(TwoSellsTrades(asset), Sell1(asset), st, index) == Success(st')
    ensures st'.pools == map[asset := PoolState(asset, 90.0, 90000.0)] && st'.special == map[Key(Buy2(asset)) := 0.0]
    ensures st'.disposals == st.disposals + [d]
    ensures d.taxYear == 2019 && d.sellValue == 40000.0 && d.allowableCosts == 25000.0 && d.feeValue == 0.0
  {
    SellCandidates(asset, Sell1(asset));
    var m := Matching(map[], 20.0, 0.0);
    var m' := Matching(map[Key(Buy2(asset)) := 0.0], 10.0, 15000.0);
    assert GetPrice(Buy2(asset), index).value.rate == 1500.0;
    assert MatchOne(Buy2(asset), m, index) == Success(m');
    assert MatchAll([Buy2(asset)], m, index) == Success(m');
    var left := PoolState(asset, 90.0, 90000.0);
    assert Sold(PoolState(asset, 100.0, 100000.0), 10.0) == Sale(left, 10000.0);
    var price := Price(CurrencyPair(asset, GBP), Sell1(asset).dateTime, 2000.0);
    assert GetPrice(Sell1(asset), index) == Some(price);
    assert Acquire(st.pools, st.special, Sell1(asset), price) == Acquisition(st.pools, None);
    var disposed := Disposed(map[asset := left], m'.special, 25000.0, Some(left));
    assert PoolOf(st.pools, asset) == PoolState(asset, 100.0, 100000.0);
    assert st.pools[asset := left] == map[asset := left];
    assert Dispose(TwoSellsTrades(asset), st.pools, st.special, Sell1(asset), index) == Success(disposed);
    d := Record(Sell1(asset), price, None, disposed);
    st' := Run(disposed.pools, disposed.special, st.disposals + [d]);
    assert UkTaxYear(Sell1(asset).dateTime) == 2019;
  }

  /** The second sale finds the acquisition used up and takes everything from the pool. */
  lemma TwoSellsStep3(asset: Currency, st: Run, index: Prices) returns (st': Run, d: Disposal)
    requires asset != GBP
    requires st.pools == map[asset := PoolState(asset, 90.0, 90000.0)] && st.special == map[Key(Buy2(asset)) := 0.0]
    ensures Step(TwoSellsTrades(asset), Sell2(asset), st, index) == Success(st')
    ensures st'.pools == map[asset := PoolState(asset, 70.0, 70000.0)] && st'.special == st.special
    ensures st'.disposals == st.disposals + [d]
    ensures d.taxYear == 2019 && d.allowableCosts == 20000.0
  {
    SellCandidates(asset, Sell2(asset));
    var m := Matching(map[Key(Buy2(asset)) := 0.0], 20.0, 0.0);
    assert Remaining(m.special, Buy2(asset)) == 0.0;
    assert m.special[Key(Buy2(asset)) := 0.0] == m.special;
    assert MatchOne(Buy2(asset), m, index) == Success(m);
    assert MatchAll([Buy2(asset)], m, index) == Success(m);
    var left := PoolState(asset, 70.0, 70000.0);
    assert Sold(PoolState(asset, 90.0, 90000.0), 20.0) == Sale(left, 20000.0);
    var price := Price(CurrencyPair(asset, GBP), Sell2(asset).dateTime, 2000.0);
    assert GetPrice(Sell2(asset), index) == Some(price);
    assert Acquire(st.pools, st.special, Sell2(asset), price) == Acquisition(st.pools, None);
    var disposed := Disposed(map[asset := left], m.special, 20000.0, Some(left));
    assert PoolOf(st.pools, asset) == PoolState(asset, 90.0, 90000.0);
    assert st.pools[asset := left] == map[asset := left];
    assert Dispose(TwoSellsTrades(asset), st.pools, st.special, Sell2(asset), index) == Success(disposed);
    d := Record(Sell2(asset), price, None, disposed);
    st' := Run(disposed.pools, disposed.special, st.disposals + [d]);
    assert UkTaxYear(Sell2(asset).dateTime) == 2019;
  }

  /** The acquisition itself adds nothing more to the pool: all of it was matched. */
  lemma TwoSellsStep4(asset: Currency, st: Run, index: Prices) returns (st': Run, d: Disposal)
    requires asset != GBP
    requires st.pools == map[asset := PoolState(asset, 70.0, 70000.0)] && st.special == map[Key(Buy2(asset)) := 0.0]
    ensures Step(TwoSellsTrades(asset), Buy2(asset), st, index) == Success(st')
    ensures st'.pools == map[asset := PoolState(asset, 70.0, 70000.0)]
    ensures st'.disposals == st.disposals + [d]
    ensures d.taxYear == 2019
  {
    var pool := PoolState(asset, 70.0, 70000.0);
    var price := Price(CurrencyPair(asset, GBP), Buy2(asset).dateTime, 1500.0);
    assert GetPrice(Buy2(asset), index) == Some(price);
    assert Remaining(st.special, Buy2(asset)) == 0.0;
    assert Bought(pool, 0.0, ConvertToGbp(price, 0.0)) == pool;
    assert st.pools[asset := pool] == st.pools;
    assert Acquire(st.pools, st.special, Buy2(asset), price) == Acquisition(st.pools, Some(pool));
    var disposed := Disposed(st.pools, st.special, 0.0, None);
    assert Dispose(TwoSellsTrades(asset), st.pools, st.special, Buy2(asset), index) == Success(disposed);
    d := Record(Buy2(asset), price, Some(pool), disposed);
    st' := Run(disposed.pools, disposed.special, st.disposals + [d]);
    assert UkTaxYear(Buy2(asset).dateTime) == 2019;
  }

  /** The four steps in sequence. */
  lemma TwoSellsReplay(asset: Currency, index: Prices) returns (st: Run, pre: seq<Disposal>, year: seq<Disposal>)
    requires asset != GBP
    ensures RunFrom(TwoSellsTrades(asset), 0, Start, index) == Success(st)
    ensures st.pools == map[asset := PoolState(asset, 70.0, 70000.0)]
    ensures st.disposals == pre + year
    ensures |pre| == 1 && pre[0].taxYear == 2018
    ensures |year| == 3 && year[0].taxYear == 2019 && year[1].taxYear == 2019 && year[2].taxYear == 2019
    ensures year[0].sellValue == 40000.0 && year[0].allowableCosts == 25000.0 && year[0].feeValue == 0.0
  {
    var st1 := TwoSellsStep1(asset, index);
    var st2, d2 := TwoSellsStep2(asset, st1, index);
    var st3, d3 := TwoSellsStep3(asset, st2, index);
    var st4, d4 := TwoSellsStep4(asset, st3, index);
    RunFour(TwoSellsTrades(asset), Start, st1, st2, st3, st4, index);
    st, pre, year := st4, st1.disposals, [d2, d3, d4];
  }

  /** The whole replay: three records in tax year 2019, the first for the
      first sale, and 70 units left in the pool at 70,000 GBP. */
  lemma TwoSellsRun(asset: Currency, index: Prices) returns (st: Run, year: seq<Disposal>)
    requires asset != GBP
    ensures RunFrom(TwoSellsTrades(asset), 0, Start, index) == Success(st)
    ensures st.pools == map[asset := PoolState(asset, 70.0, 70000.0)]
    ensures |st.disposals| == 4 && st.disposals[1].taxYear == 2019
    ensures InYear(st.disposals, 2019) == year && |year| == 3
    ensures year[0].sellValue == 40000.0 && year[0].allowableCosts == 25000.0 && year[0].feeValue == 0.0
  {
    var pre;
    st, pre, year := TwoSellsReplay(asset, index);
    YearOfSuffix(pre, year, 2019);
  }

  /** `multiple_sells_with_same_buy_within_30_days`: the first sale of tax
      year 2019 has proceeds of 40,000 GBP, allowable costs of 25,000 GBP and
      a gain of 15,000 GBP, and the pool keeps 70 units at 70,000 GBP. */
  lemma MultipleSellsWithSameBuyWithin30Days(asset: Currency, index: Prices) returns (report: TaxReport)
    requires asset != GBP
    ensures CalculateSpec(TwoSellsTrades(asset), index) == Success(report)
    ensures 2019 in report.years && |report.years[2019].disposals| == 3
    ensures report.years[2019].disposals[0].Proceeds() == 40000.0
    ensures report.years[2019].disposals[0].allowableCosts == 25000.0
    ensures report.years[2019].disposals[0].Gain() == 15000.0
    ensures report.pools == map[asset := PoolState(asset, 70.0, 70000.0)]
  {
    assert SortedBy(TwoSellsTrades(asset), TradeTime);
    var st, year := TwoSellsRun(asset, index);
    ReportOf(TwoSellsTrades(asset), index, st);
    report := TaxReport(TwoSellsTrades(asset), Buckets(st.disposals), st.pools);
  }
}
