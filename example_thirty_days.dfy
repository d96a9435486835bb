/** A disposal matched against acquisitions made within the 30 days after it:
    HMRC's example with one later acquisition smaller than the disposal, the
    same quantity bought in two acquisitions, and one later acquisition
    larger than the disposal whose excess goes to the pool. */
module ThirtyDaysExample {
  import opened Wrappers
  import opened Calendar
  import opened Trades
  import opened Prices
  import opened Pooling
  import opened Sorting
  import opened TaxReports
  import opened Cgt
  import opened ExampleTrades

  /** 14,000 units bought for 200,000 GBP at a rate of 14.285714286. */
  function EarlyBuy(asset: Currency): Trade {
    TestTrade(LateOn(2018, 1, 1), Buy, Money(200000.0, GBP), Money(14000.0, asset), 14.285714286)
  }

  /** 4,000 units sold for 160,000 GBP on 30 August. */
  function LateSale(asset: Currency): Trade {
    TestTrade(LateOn(2018, 8, 30), Sell, Money(4000.0, asset), Money(160000.0, GBP), 40.0)
  }

  /** Buys at 35 GBP a unit in the 30 days after the sale. */
  function RebuySmall(asset: Currency): Trade {
    TestTrade(LateOn(2018, 9, 11), Buy, Money(17500.0, GBP), Money(500.0, asset), 35.0)
  }

  function RebuyFirst(asset: Currency): Trade {
    TestTrade(LateOn(2018, 9, 11), Buy, Money(8750.0, GBP), Money(250.0, asset), 35.0)
  }

  function RebuySecond(asset: Currency): Trade {
    TestTrade(LateOn(2018, 9, 12), Buy, Money(8750.0, GBP), Money(250.0, asset), 35.0)
  }

  function RebuyLarge(asset: Currency): Trade {
    TestTrade(LateOn(2018, 9, 11), Buy, Money(175000.0, GBP), Money(5000.0, asset), 35.0)
  }

  /** The pool after the early buy: the quantity times the rate, which is
      0.000004 GBP more than 200,000 GBP. */
  function FullPool(asset: Currency): PoolState {
    PoolState(asset, 14000.0, 200000.000004)
  }

  function SmallTrades(asset: Currency): seq<Trade> {
    [EarlyBuy(asset), LateSale(asset), RebuySmall(asset)]
  }

  function SplitTrades(asset: Currency): seq<Trade> {
    [EarlyBuy(asset), LateSale(asset), RebuyFirst(asset), RebuySecond(asset)]
  }

  function LargeTrades(asset: Currency): seq<Trade> {
    [EarlyBuy(asset), LateSale(asset), RebuyLarge(asset)]
  }

  /** The early buy fills the pool; nothing is matched against it. */
  lemma EarlyStep(trades: seq<Trade>, asset: Currency, index: Prices) returns (st: Run)
    requires asset != GBP
    ensures Step(trades, EarlyBuy(asset), Start, index) == Success(st)
    ensures st.pools == map[asset := FullPool(asset)] && st.special == map[]
    ensures |st.disposals| == 1 && st.disposals[0].taxYear == 2018
  {
    var t := EarlyBuy(asset);
    var price := Price(CurrencyPair(asset, GBP), t.dateTime, 14.285714286);
    assert GetPrice(t, index) == Some(price);
    assert Acquire(map[], map[], t, price) == Acquisition(map[asset := FullPool(asset)], Some(FullPool(asset)));
    var disposed := Disposed(map[asset := FullPool(asset)], map[], 0.0, None);
    assert Dispose(trades, map[asset := FullPool(asset)], map[], t, index) == Success(disposed);
    var d := Record(t, price, Some(FullPool(asset)), disposed);
    assert Start.disposals + [d] == [d];
    st := Run(disposed.pools, disposed.special, [d]);
    assert UkTaxYear(t.dateTime) == 2018;
  }

  /** The sale: whatever the later acquisitions do not match leaves the full
      pool, and the allowable costs are the pool's share plus the matched costs. */
  lemma SaleStep(trades: seq<Trade>, asset: Currency, st: Run, m: Matching, index: Prices) returns (st': Run, d: Disposal)
    requires asset != GBP
    requires st.pools == map[asset := FullPool(asset)] && st.special == map[]
    requires MatchAll(Candidates(trades, LateSale(asset)), Matching(map[], 4000.0, 0.0), index) == Success(m)
    requires SaleDefined(FullPool(asset), m.unmatched)
    ensures Step(trades, LateSale(asset), st, index) == Success(st')
    ensures st'.pools == map[asset := Sold(FullPool(asset), m.unmatched).pool] && st'.special == m.special
    ensures st'.disposals == st.disposals + [d]
    ensures d.taxYear == 2019 && d.sellValue == 160000.0 && d.feeValue == 0.0
    ensures d.allowableCosts == Sold(FullPool(asset), m.unmatched).consumed + m.costs
  {
    var t := LateSale(asset);
    var price := Price(CurrencyPair(asset, GBP), t.dateTime, 40.0);
    assert GetPrice(t, index) == Some(price);
    assert Acquire(st.pools, st.special, t, price) == Acquisition(st.pools, None);
    var sale := Sold(FullPool(asset), m.unmatched);
    var disposed := Disposed(map[asset := sale.pool], m.special, sale.consumed + m.costs, Some(sale.pool));
    assert PoolOf(st.pools, asset) == FullPool(asset);
    assert st.pools[asset := sale.pool] == map[asset := sale.pool];
    assert Dispose(trades, st.pools, st.special, t, index) == Success(disposed);
    d := Record(t, price, None, disposed);
    st' := Run(disposed.pools, disposed.special, st.disposals + [d]);
    assert UkTaxYear(t.dateTime) == 2019;
  }

  /** A later buy adds to the pool only what the sale left of it, at 35 GBP a unit. */
  lemma RebuyStep(trades: seq<Trade>, t: Trade, asset: Currency, st: Run, p: PoolState, index: Prices)
    returns (st': Run, d: Disposal)
    requires asset != GBP
    requires t in {RebuySmall(asset), RebuyFirst(asset), RebuySecond(asset), RebuyLarge(asset)}
    requires st.pools == map[asset := p]
    ensures Step(trades, t, st, index) == Success(st')
    ensures st'.pools == map[asset := Bought(p, Remaining(st.special, t), Remaining(st.special, t) * 35.0)]
    ensures Remaining(st.special, t) == 0.0 ==> st'.pools == st.pools
    ensures st'.special == st.special
    ensures st'.disposals == st.disposals + [d] && d.taxYear == 2019
  {
    var amount := Remaining(st.special, t);
    var pool := Bought(p, amount, amount * 35.0);
    var price := Price(CurrencyPair(asset, GBP), t.dateTime, 35.0);
    assert GetPrice(t, index) == Some(price);
    assert st.pools[asset := pool] == map[asset := pool];
    assert Acquire(st.pools, st.special, t, price) == Acquisition(map[asset := pool], Some(pool));
    var disposed := Disposed(map[asset := pool], st.special, 0.0, None);
    assert Dispose(trades, map[asset := pool], st.special, t, index) == Success(disposed);
    d := Record(t, price, Some(pool), disposed);
    st' := Run(disposed.pools, disposed.special, st.disposals + [d]);
    assert UkTaxYear(t.dateTime) == 2019;
  }

  /** The sale is matched against the 500-unit buy alone: all of it at 35
      GBP a unit, leaving 3,500 units for the pool. */
  lemma SmallMatch(asset: Currency, index: Prices) returns (m: Matching)
    requires asset != GBP
    ensures MatchAll(Candidates(SmallTrades(asset), LateSale(asset)), Matching(map[], 4000.0, 0.0), index) == Success(m)
    ensures m == Matching(map[Key(RebuySmall(asset)) := 0.0], 3500.0, 17500.0)
  {
    var s, b := LateSale(asset), RebuySmall(asset);
    assert !IsCandidate(EarlyBuy(asset), s) && !IsCandidate(s, s) && IsCandidate(b, s);
    assert Candidates([b], s) == [b];
    assert Candidates([s, b], s) == [b];
    assert Candidates(SmallTrades(asset), s) == [b];
    m := Matching(map[Key(b) := 0.0], 3500.0, 17500.0);
    assert GetPrice(b, index).value.rate == 35.0;
    assert MatchOne(b, Matching(map[], 4000.0, 0.0), index) == Success(m);
  }

  /** Both 250-unit buys lie within the 30 days after the sale. */
  lemma SplitCandidates(asset: Currency)
    requires asset != GBP
    ensures Candidates(SplitTrades(asset), LateSale(asset)) == [RebuyFirst(asset), RebuySecond(asset)]
  {
    var s, b1, b2 := LateSale(asset), RebuyFirst(asset), RebuySecond(asset);
    assert !IsCandidate(EarlyBuy(asset), s) && !IsCandidate(s, s) && IsCandidate(b1, s) && IsCandidate(b2, s);
    assert Candidates([b2], s) == [b2];
    assert Candidates([b1, b2], s) == [b1, b2];
    assert Candidates([s, b1, b2], s) == [b1, b2];
  }

  /** The sale is matched against both 250-unit buys in date order. */
  lemma SplitMatch(asset: Currency, index: Prices) returns (m: Matching)
    requires asset != GBP
    ensures MatchAll(Candidates(SplitTrades(asset), LateSale(asset)), Matching(map[], 4000.0, 0.0), index) == Success(m)
    ensures m == Matching(map[Key(RebuyFirst(asset)) := 0.0, Key(RebuySecond(asset)) := 0.0], 3500.0, 17500.0)
  {
    var b1, b2 := RebuyFirst(asset), RebuySecond(asset);
    SplitCandidates(asset);
    var m1 := Matching(map[Key(b1) := 0.0], 3750.0, 8750.0);
    m := Matching(map[Key(b1) := 0.0, Key(b2) := 0.0], 3500.0, 17500.0);
    assert GetPrice(b1, index).value.rate == 35.0 && GetPrice(b2, index).value.rate == 35.0;
    assert MatchOne(b1, Matching(map[], 4000.0, 0.0), index) == Success(m1);
    assert Key(b1) != Key(b2) && Remaining(m1.special, b2) == 250.0;
    assert MatchOne(b2, m1, index) == Success(m);
    assert MatchAll([b2], m1, index) == Success(m);
  }

  /** The sale is matched in full against the 5,000-unit buy, leaving 1,000
      units of it. */
  lemma LargeMatch(asset: Currency, index: Prices) returns (m: Matching)
    requires asset != GBP
    ensures MatchAll(Candidates(LargeTrades(asset), LateSale(asset)), Matching(map[], 4000.0, 0.0), index) == Success(m)
    ensures m == Matching(map[Key(RebuyLarge(asset)) := 1000.0], 0.0, 140000.0)
  {
    var s, b := LateSale(asset), RebuyLarge(asset);
    assert !IsCandidate(EarlyBuy(asset), s) && !IsCandidate(s, s) && IsCandidate(b, s);
    assert Candidates([b], s) == [b];
    assert Candidates([s, b], s) == [b];
    assert Candidates(LargeTrades(asset), s) == [b];
    m := Matching(map[Key(b) := 1000.0], 0.0, 140000.0);
    assert GetPrice(b, index).value.rate == 35.0;
    assert MatchOne(b, Matching(map[], 4000.0, 0.0), index) == Success(m);
  }

  /** `hmrc_acquiring_within_30_days_of_selling_example`: 500 of the 4,000
      units sold are matched at 17,500 GBP and 3,500 take a quarter of the
      pool's costs; the later buy adds nothing to the pool. */
  lemma SmallReplay(asset: Currency, index: Prices) returns (st: Run, pre: seq<Disposal>, year: seq<Disposal>)
    requires asset != GBP
    ensures RunFrom(SmallTrades(asset), 0, Start, index) == Success(st)
    ensures st.pools == map[asset := PoolState(asset, 10500.0, 150000.000003)]
    ensures st.disposals == pre + year
    ensures |pre| == 1 && pre[0].taxYear == 2018
    ensures |year| == 2 && year[0].taxYear == 2019 && year[1].taxYear == 2019
    ensures year[0].sellValue == 160000.0 && year[0].allowableCosts == 67500.000001 && year[0].feeValue == 0.0
  {
    var trades := SmallTrades(asset);
    var b := RebuySmall(asset);
    var m := SmallMatch(asset, index);
    var left := PoolState(asset, 10500.0, 150000.000003);
    assert Sold(FullPool(asset), 3500.0) == Sale(left, 50000.000001);
    var st1 := EarlyStep(trades, asset, index);
    var st2, d2 := SaleStep(trades, asset, st1, m, index);
    assert st2.pools == map[asset := left];
    assert Remaining(st2.special, b) == 0.0;
    var st3, d3 := RebuyStep(trades, b, asset, st2, left, index);
    RunThree(trades, Start, st1, st2, st3, index);
    st, pre, year := st3, st1.disposals, [d2, d3];
  }

  /** The records of tax year 2019 are those of the sale and what follows it. */
  lemma SmallRun(asset: Currency, index: Prices) returns (st: Run, year: seq<Disposal>)
    requires asset != GBP
    ensures RunFrom(SmallTrades(asset), 0, Start, index) == Success(st)
    ensures st.pools == map[asset := PoolState(asset, 10500.0, 150000.000003)]
    ensures |st.disposals| == 3 && st.disposals[1].taxYear == 2019
    ensures InYear(st.disposals, 2019) == year && |year| == 2
    ensures year[0].sellValue == 160000.0 && year[0].allowableCosts == 67500.000001 && year[0].feeValue == 0.0
  {
    var pre;
    st, pre, year := SmallReplay(asset, index);
    YearOfSuffix(pre, year, 2019);
  }

  /** The report: proceeds 160,000 GBP, allowable costs and gain within a
      millionth of a pound of 67,500 and 92,500 GBP, and 10,500 units left in
      the pool at just over 150,000 GBP. */
  lemma AcquiringWithin30DaysOfSelling(asset: Currency, index: Prices) returns (report: TaxReport)
    requires asset != GBP
    ensures CalculateSpec(SmallTrades(asset), index) == Success(report)
    ensures 2019 in report.years && |report.years[2019].disposals| == 2
    ensures report.years[2019].disposals[0].Proceeds() == 160000.0
    ensures report.years[2019].disposals[0].allowableCosts == 67500.000001
    ensures report.years[2019].disposals[0].Gain() == 92499.999999
    ensures report.pools == map[asset := PoolState(asset, 10500.0, 150000.000003)]
  {
    assert SortedBy(SmallTrades(asset), TradeTime);
    var st, year := SmallRun(asset, index);
    ReportOf(SmallTrades(asset), index, st);
    report := TaxReport(SmallTrades(asset), Buckets(st.disposals), st.pools);
  }

  /** `multiple_acquisitions_within_30_days`: the sale is matched against
      both 250-unit buys in date order, and the outcome is that of the
      single 500-unit buy. */
  lemma SplitReplay(asset: Currency, index: Prices) returns (st: Run, pre: seq<Disposal>, year: seq<Disposal>)
    requires asset != GBP
    ensures RunFrom(SplitTrades(asset), 0, Start, index) == Success(st)
    ensures st.pools == map[asset := PoolState(asset, 10500.0, 150000.000003)]
    ensures st.disposals == pre + year
    ensures |pre| == 1 && pre[0].taxYear == 2018
    ensures |year| == 3 && year[0].taxYear == 2019 && year[1].taxYear == 2019 && year[2].taxYear == 2019
    ensures year[0].sellValue == 160000.0 && year[0].allowableCosts == 67500.000001 && year[0].feeValue == 0.0
  {
    var trades := SplitTrades(asset);
    var b1, b2 := RebuyFirst(asset), RebuySecond(asset);
    var m := SplitMatch(asset, index);
    var left := PoolState(asset, 10500.0, 150000.000003);
    assert Sold(FullPool(asset), 3500.0) == Sale(left, 50000.000001);
    var st1 := EarlyStep(trades, asset, index);
    var st2, d2 := SaleStep(trades, asset, st1, m, index);
    assert st2.pools == map[asset := left];
    assert Remaining(st2.special, b1) == 0.0 && Remaining(st2.special, b2) == 0.0;
    var st3, d3 := RebuyStep(trades, b1, asset, st2, left, index);
    var st4, d4 := RebuyStep(trades, b2, asset, st3, left, index);
    RunFour(trades, Start, st1, st2, st3, st4, index);
    st, pre, year := st4, st1.disposals, [d2, d3, d4];
  }

  /** The records of tax year 2019 are those of the sale and what follows it. */
  lemma SplitRun(asset: Currency, index: Prices) returns (st: Run, year: seq<Disposal>)
    requires asset != GBP
    ensures RunFrom(SplitTrades(asset), 0, Start, index) == Success(st)
    ensures st.pools == map[asset := PoolState(asset, 10500.0, 150000.000003)]
    ensures |st.disposals| == 4 && st.disposals[1].taxYear == 2019
    ensures InYear(st.disposals, 2019) == year && |year| == 3
    ensures year[0].sellValue == 160000.0 && year[0].allowableCosts == 67500.000001 && year[0].feeValue == 0.0
  {
    var pre;
    st, pre, year := SplitReplay(asset, index);
    YearOfSuffix(pre, year, 2019);
  }

  /** The report: the same figures as with the single 500-unit buy, with one
      more record in tax year 2019. */
  lemma MultipleAcquisitionsWithin30Days(asset: Currency, index: Prices) returns (report: TaxReport)
    requires asset != GBP
    ensures CalculateSpec(SplitTrades(asset), index) == Success(report)
    ensures 2019 in report.years && |report.years[2019].disposals| == 3
    ensures report.years[2019].disposals[0].Proceeds() == 160000.0
    ensures report.years[2019].disposals[0].allowableCosts == 67500.000001
    ensures report.years[2019].disposals[0].Gain() == 92499.999999
    ensures report.pools == map[asset := PoolState(asset, 10500.0, 150000.000003)]
  {
    assert SortedBy(SplitTrades(asset), TradeTime);
    var st, year := SplitRun(asset, index);
    ReportOf(SplitTrades(asset), index, st);
    report := TaxReport(SplitTrades(asset), Buckets(st.disposals), st.pools);
  }

  /** `acquisition_within_30_days_greater_than_disposal_returned_to_pool`:
      the whole sale is matched against the 5,000-unit buy, the sale leaves
      the pool as it was, and the 1,000 units left of the buy enter the pool
      at 35,000 GBP. */
  lemma LargeReplay(asset: Currency, index: Prices) returns (st: Run, pre: seq<Disposal>, year: seq<Disposal>)
    requires asset != GBP
    ensures RunFrom(LargeTrades(asset), 0, Start, index) == Success(st)
    ensures st.pools == map[asset := PoolState(asset, 15000.0, 235000.000004)]
    ensures st.disposals == pre + year
    ensures |pre| == 1 && pre[0].taxYear == 2018
    ensures |year| == 2 && year[0].taxYear == 2019 && year[1].taxYear == 2019
    ensures year[0].sellValue == 160000.0 && year[0].allowableCosts == 140000.0 && year[0].feeValue == 0.0
  {
    var trades := LargeTrades(asset);
    var b := RebuyLarge(asset);
    var m := LargeMatch(asset, index);
    assert Sold(FullPool(asset), 0.0) == Sale(FullPool(asset), 0.0);
    var st1 := EarlyStep(trades, asset, index);
    var st2, d2 := SaleStep(trades, asset, st1, m, index);
    assert Remaining(st2.special, b) == 1000.0;
    var st3, d3 := RebuyStep(trades, b, asset, st2, FullPool(asset), index);
    assert Bought(FullPool(asset), 1000.0, 1000.0 * 35.0) == PoolState(asset, 15000.0, 235000.000004);
    RunThree(trades, Start, st1, st2, st3, index);
    st, pre, year := st3, st1.disposals, [d2, d3];
  }

  /** The records of tax year 2019 are those of the sale and what follows it. */
  lemma LargeRun(asset: Currency, index: Prices) returns (st: Run, year: seq<Disposal>)
    requires asset != GBP
    ensures RunFrom(LargeTrades(asset), 0, Start, index) == Success(st)
    ensures st.pools == map[asset := PoolState(asset, 15000.0, 235000.000004)]
    ensures |st.disposals| == 3 && st.disposals[1].taxYear == 2019
    ensures InYear(st.disposals, 2019) == year && |year| == 2
    ensures year[0].sellValue == 160000.0 && year[0].allowableCosts == 140000.0 && year[0].feeValue == 0.0
  {
    var pre;
    st, pre, year := LargeReplay(asset, index);
    YearOfSuffix(pre, year, 2019);
  }

  /** The report: proceeds 160,000 GBP, allowable costs 140,000 GBP, gain
      20,000 GBP, and 15,000 units in the pool at just over 235,000 GBP. */
  lemma AcquisitionGreaterThanDisposalReturnedToPool(asset: Currency, index: Prices) returns (report: TaxReport)
    requires asset != GBP
    ensures CalculateSpec(LargeTrades(asset), index) == Success(report)
    ensures 2019 in report.years && |report.years[2019].disposals| == 2
    ensures report.years[2019].disposals[0].Proceeds() == 160000.0
    ensures report.years[2019].disposals[0].allowableCosts == 140000.0
    ensures report.years[2019].disposals[0].Gain() == 20000.0
    ensures report.pools == map[asset := PoolState(asset, 15000.0, 235000.000004)]
  {
    assert SortedBy(LargeTrades(asset), TradeTime);
    var st, year := LargeRun(asset, index);
    ReportOf(LargeTrades(asset), index, st);
    report := TaxReport(LargeTrades(asset), Buckets(st.disposals), st.pools);
  }
}
