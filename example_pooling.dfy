/** HMRC's section 104 pooling example, in order and out of order, and a
    disposal larger than the pool. */
module PoolingExample {
  import opened Wrappers
  import opened Calendar
  import opened Trades
  import opened Prices
  import opened Pooling
  import opened Sorting
  import opened TaxReports
  import opened Cgt
  import opened CgtFacts
  import opened ExampleTrades

  /** 100 units bought for 1,000 GBP, 50 more for 125,000 GBP, then 50 sold
      for 300,000 GBP. */
  function Acq1(asset: Currency): Trade {
    TestTrade(LateOn(2016, 1, 1), Buy, Money(1000.0, GBP), Money(100.0, asset), 10.0)
  }

  function Acq2(asset: Currency): Trade {
    TestTrade(LateOn(2017, 1, 1), Buy, Money(125000.0, GBP), Money(50.0, asset), 2500.0)
  }

  function Disp(asset: Currency): Trade {
    TestTrade(LateOn(2018, 1, 1), Sell, Money(50.0, asset), Money(300000.0, GBP), 6000.0)
  }

  function PoolingTrades(asset: Currency): seq<Trade> {
    [Acq1(asset), Acq2(asset), Disp(asset)]
  }

  lemma PoolingStep1(asset: Currency, index: Prices) returns (st: Run)
    requires asset != GBP
    ensures Step(PoolingTrades(asset), Acq1(asset), Start, index) == Success(st)
    ensures st.pools == map[asset := PoolState(asset, 100.0, 1000.0)] && st.special == map[]
    ensures |st.disposals| == 1 && st.disposals[0].taxYear == 2016
  {
    var t := Acq1(asset);
    var pool := PoolState(asset, 100.0, 1000.0);
    var price := Price(CurrencyPair(asset, GBP), t.dateTime, 10.0);
    assert GetPrice(t, index) == Some(price);
    assert Acquire(map[], map[], t, price) == Acquisition(map[asset := pool], Some(pool));
    var disposed := Disposed(map[asset := pool], map[], 0.0, None);
    assert Dispose(PoolingTrades(asset), map[asset := pool], map[], t, index) == Success(disposed);
    var r := Record(t, price, Some(pool), disposed);
    assert Start.disposals + [r] == [r];
    st := Run(disposed.pools, disposed.special, [r]);
    assert UkTaxYear(t.dateTime) == 2016;
  }

  lemma PoolingStep2(asset: Currency, st: Run, index: Prices) returns (st': Run, d: Disposal)
    requires asset != GBP
    requires st.pools == map[asset := PoolState(asset, 100.0, 1000.0)] && st.special == map[]
    ensures Step(PoolingTrades(asset), Acq2(asset), st, index) == Success(st')
    ensures st'.pools == map[asset := PoolState(asset, 150.0, 126000.0)] && st'.special == map[]
    ensures st'.disposals == st.disposals + [d] && d.taxYear == 2017
  {
    var t := Acq2(asset);
    var pool := PoolState(asset, 150.0, 126000.0);
    var price := Price(CurrencyPair(asset, GBP), t.dateTime, 2500.0);
    assert GetPrice(t, index) == Some(price);
    assert st.pools[asset := pool] == map[asset := pool];
    assert Acquire(st.pools, st.special, t, price) == Acquisition(map[asset := pool], Some(pool));
    var disposed := Disposed(map[asset := pool], map[], 0.0, None);
    assert Dispose(PoolingTrades(asset), map[asset := pool], map[], t, index) == Success(disposed);
    d := Record(t, price, Some(pool), disposed);
    st' := Run(disposed.pools, disposed.special, st.disposals + [d]);
    assert UkTaxYear(t.dateTime) == 2017;
  }

  /** The disposal has no acquisition within 30 days after it and takes a
      third of the pool's costs. */
  lemma PoolingStep3(asset: Currency, st: Run, index: Prices) returns (st': Run, d: Disposal)
    requires asset != GBP
    requires st.pools == map[asset := PoolState(asset, 150.0, 126000.0)] && st.special == map[]
    ensures Step(PoolingTrades(asset), Disp(asset), st, index) == Success(st')
    ensures st'.pools == map[asset := PoolState(asset, 100.0, 84000.0)]
    ensures st'.disposals == st.disposals + [d]
    ensures d.taxYear == 2018 && d.sellValue == 300000.0 && d.allowableCosts == 42000.0 && d.feeValue == 0.0
  {
    var t := Disp(asset);
    assert !IsCandidate(Acq1(asset), t) && !IsCandidate(Acq2(asset), t) && !IsCandidate(t, t);
    assert Candidates([t], t) == [];
    assert Candidates([Acq2(asset), t], t) == [];
    assert Candidates(PoolingTrades(asset), t) == [];
    var m := Matching(map[], 50.0, 0.0);
    assert MatchAll([], m, index) == Success(m);
    var left := PoolState(asset, 100.0, 84000.0);
    assert Sold(PoolState(asset, 150.0, 126000.0), 50.0) == Sale(left, 42000.0);
    var price := Price(CurrencyPair(asset, GBP), t.dateTime, 6000.0);
    assert GetPrice(t, index) == Some(price);
    assert Acquire(st.pools, st.special, t, price) == Acquisition(st.pools, None);
    var disposed := Disposed(map[asset := left], map[], 42000.0, Some(left));
    assert st.pools[asset := left] == map[asset := left];
    assert Dispose(PoolingTrades(asset), st.pools, st.special, t, index) == Success(disposed);
    d := Record(t, price, None, disposed);
    st' := Run(disposed.pools, disposed.special, st.disposals + [d]);
    assert UkTaxYear(t.dateTime) == 2018;
  }

  /** The replay of the three trades: one record in tax year 2018. */
  lemma PoolingRun(asset: Currency, index: Prices) returns (st: Run, d: Disposal)
    requires asset != GBP
    ensures RunFrom(PoolingTrades(asset), 0, Start, index) == Success(st)
    ensures |st.disposals| == 3 && st.disposals[2].taxYear == 2018
    ensures InYear(st.disposals, 2018) == [d]
    ensures d.sellValue == 300000.0 && d.allowableCosts == 42000.0 && d.feeValue == 0.0
  {
    var st1 := PoolingStep1(asset, index);
    var st2, d2 := PoolingStep2(asset, st1, index);
    var st3, d3 := PoolingStep3(asset, st2, index);
    RunThree(PoolingTrades(asset), Start, st1, st2, st3, index);
    st, d := st3, d3;
    YearOfSuffix(st2.disposals, [d], 2018);
  }

  /** `hmrc_pooling_example`: proceeds 300,000 GBP, allowable costs 42,000
      GBP, gain 258,000 GBP in tax year 2018. */
  lemma HmrcPoolingExample(asset: Currency, index: Prices)
    requires asset != GBP
    ensures var r := CalculateSpec(PoolingTrades(asset), index);
      && r.Success?
      && 2018 in r.value.years
      && TotalProceeds(r.value.years[2018].disposals) == 300000.0
      && TotalAllowableCosts(r.value.years[2018].disposals) == 42000.0
      && TotalGain(r.value.years[2018].disposals) == 258000.0
  {
    assert SortedBy(PoolingTrades(asset), TradeTime);
    var st, d := PoolingRun(asset, index);
    ReportOf(PoolingTrades(asset), index, st);
    assert [d][..0] == [];
  }

  /** `hmrc_pooling_example_out_of_order`: the trades given latest first
      produce the same report. */
  lemma HmrcPoolingExampleOutOfOrder(asset: Currency, index: Prices)
    requires asset != GBP
    ensures CalculateSpec([Disp(asset), Acq2(asset), Acq1(asset)], index) == CalculateSpec(PoolingTrades(asset), index)
  {
    var a := [Disp(asset), Acq2(asset), Acq1(asset)];
    assert multiset(a) == multiset(PoolingTrades(asset));
    CalculateOrderIndependent(a, PoolingTrades(asset), index);
  }

  /** One unit bought for 1,000 GBP, two sold for 2,000 GBP. */
  function Short1(asset: Currency): Trade {
    TestTrade(LateOn(2016, 1, 1), Buy, Money(1000.0, GBP), Money(1.0, asset), 1000.0)
  }

  function Short2(asset: Currency): Trade {
    TestTrade(LateOn(2018, 1, 1), Sell, Money(2.0, asset), Money(2000.0, GBP), 1000.0)
  }

  lemma ShortRun(asset: Currency, index: Prices) returns (st: Run, d: Disposal)
    requires asset != GBP
    ensures RunFrom([Short1(asset), Short2(asset)], 0, Start, index) == Success(st)
    ensures |st.disposals| == 2 && st.disposals[1].taxYear == 2018
    ensures InYear(st.disposals, 2018) == [d]
    ensures d.sellValue == 2000.0 && d.allowableCosts == 1000.0 && d.feeValue == 0.0
    ensures st.pools == map[asset := PoolState(asset, 0.0, 0.0)]
  {
    var trades := [Short1(asset), Short2(asset)];
    var b, s := Short1(asset), Short2(asset);
    var full := PoolState(asset, 1.0, 1000.0);
    var empty := PoolState(asset, 0.0, 0.0);
    var buyPrice := Price(CurrencyPair(asset, GBP), b.dateTime, 1000.0);
    assert GetPrice(b, index) == Some(buyPrice);
    assert Acquire(map[], map[], b, buyPrice) == Acquisition(map[asset := full], Some(full));
    var bought := Disposed(map[asset := full], map[], 0.0, None);
    assert Dispose(trades, map[asset := full], map[], b, index) == Success(bought);
    var r := Record(b, buyPrice, Some(full), bought);
    assert Start.disposals + [r] == [r];
    var st1 := Run(map[asset := full], map[], [r]);
    assert Step(trades, b, Start, index) == Success(st1);
    assert UkTaxYear(b.dateTime) == 2016;

    assert !IsCandidate(b, s) && !IsCandidate(s, s);
    assert Candidates([s], s) == [];
    assert Candidates(trades, s) == [];
    var m := Matching(map[], 2.0, 0.0);
    assert MatchAll([], m, index) == Success(m);
    assert Sold(full, 2.0) == Sale(empty, 1000.0);
    var price := Price(CurrencyPair(asset, GBP), s.dateTime, 1000.0);
    assert GetPrice(s, index) == Some(price);
    assert Acquire(st1.pools, st1.special, s, price) == Acquisition(st1.pools, None);
    var sold := Disposed(map[asset := empty], map[], 1000.0, Some(empty));
    assert st1.pools[asset := empty] == map[asset := empty];
    assert Dispose(trades, st1.pools, st1.special, s, index) == Success(sold);
    d := Record(s, price, None, sold);
    st := Run(sold.pools, sold.special, st1.disposals + [d]);
    assert Step(trades, s, st1, index) == Success(st);
    assert UkTaxYear(s.dateTime) == 2018;
    RunTwo(trades, Start, st1, st, index);
    YearOfSuffix(st1.disposals, [d], 2018);
  }

  /** `disposal_with_not_enough_funds_in_pool_should_use_partial_allowable_costs`:
      selling more than the pool holds takes all of its costs. */
  lemma PartialAllowableCosts(asset: Currency, index: Prices)
    requires asset != GBP
    ensures var r := CalculateSpec([Short1(asset), Short2(asset)], index);
      && r.Success?
      && 2018 in r.value.years
      && TotalProceeds(r.value.years[2018].disposals) == 2000.0
      && TotalAllowableCosts(r.value.years[2018].disposals) == 1000.0
      && TotalGain(r.value.years[2018].disposals) == 1000.0
  {
    assert SortedBy([Short1(asset), Short2(asset)], TradeTime);
    var st, d := ShortRun(asset, index);
    ReportOf([Short1(asset), Short2(asset)], index, st);
    assert [d][..0] == [];
  }
}
