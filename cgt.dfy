/** The capital-gains engine: trades replayed in date order against one
    section 104 pool per asset, with each disposal first matched against
    acquisitions of the same asset made within the following 30 days. */
module Cgt {
  import opened Wrappers
  import opened Calendar
  import opened Trades
  import opened Prices
  import opened Pooling
  import opened Sorting
  import opened TaxReports

  /** Why `calculate` stops. */
  datatype CalcError =
    | MissingPrice(trade: Trade)      // the `expect` on a trade's own price panics
    | MissingBuyPrice(at: DateTime)   // no price for a matched later acquisition
    | DivisionByZero                  // `Pool::sell` divides by an empty pool's total

  function TradeTime(t: Trade): DateTime {
    t.dateTime
  }

  /** The leg whose GBP price values the trade. */
  function QuoteOf(t: Trade): Currency {
    if t.kind == Buy then t.sell.currency else t.buy.currency
  }

  /** The leg the trade is about. */
  function BaseOf(t: Trade): Currency {
    if t.kind == Buy then t.buy.currency else t.sell.currency
  }

  /** The index holds a quote of `pair` dated `at`. */
  predicate Quoted(index: Prices, pair: CurrencyPair, at: Date) {
    pair in index.prices && exists p :: p in index.prices[pair] && p.dateTime.date == at
  }

  /** `get_price`: a trade against GBP is priced at its own rate; any other
      trade at the index's GBP quote of its quote currency on the trade's date. */
  function GetPrice(t: Trade, index: Prices): (r: Option<Price>)
    ensures r.Some? ==> r.value.dateTime.date == t.dateTime.date
    ensures QuoteOf(t) == GBP ==>
      r == Some(Price(CurrencyPair(BaseOf(t), GBP), t.dateTime, t.rate))
    ensures QuoteOf(t) != GBP ==>
      && (r.None? <==> !Quoted(index, CurrencyPair(QuoteOf(t), GBP), t.dateTime.date))
      && (r.Some? ==> r.value in index.prices[CurrencyPair(QuoteOf(t), GBP)])
  {
    var quote, base := QuoteOf(t), BaseOf(t);
    if quote == GBP then Some(Price(CurrencyPair(base, GBP), t.dateTime, t.rate))
    else
      Get(index, CurrencyPair(quote, GBP), t.dateTime.date)
  }

  /** A trade not quoted in GBP is priced at the first GBP quote of its
      quote currency on its calendar date, as `Prices::get` picks it. */
  lemma GetPriceFirstQuote(t: Trade, index: Prices)
    requires QuoteOf(t) != GBP && GetPrice(t, index).Some?
    ensures var quotes := index.prices[CurrencyPair(QuoteOf(t), GBP)];
      exists k :: 0 <= k < |quotes| && quotes[k] == GetPrice(t, index).value
        && forall j :: 0 <= j < k ==> quotes[j].dateTime.date != t.dateTime.date
  {
  }

  /** `Price::convert_to_gbp`, as the amount times the quote's rate; the
      trade's own rate, which the engine also passes, is not used. */
  function ConvertToGbp(price: Price, amount: real): real {
    amount * price.rate
  }

  /** The GBP value of one leg of a trade: GBP as it stands, anything else converted. */
  function Value(m: Money, price: Price): real {
    if m.currency == GBP then m.amount else ConvertToGbp(price, m.amount)
  }

  /** `t` acquires what `disposal` disposes of, on or after the disposal's
      calendar date and earlier than 30 days after its date-time. */
  predicate IsCandidate(t: Trade, disposal: Trade) {
    && t.buy.currency == disposal.sell.currency
    && DateLe(disposal.dateTime.date, t.dateTime.date)
    && BeforeDaysAfter(t.dateTime, disposal.dateTime, 30)
  }

  /** The acquisitions a disposal is matched against, in the order of `ts`. */
  function Candidates(ts: seq<Trade>, disposal: Trade): seq<Trade> {
    if ts == [] then []
    else (if IsCandidate(ts[0], disposal) then [ts[0]] else []) + Candidates(ts[1..], disposal)
  }

  /** The candidates are exactly the trades of `ts` that qualify, each as
      often as it occurs in `ts`. */
  lemma {:induction false} CandidatesCount(ts: seq<Trade>, disposal: Trade)
    ensures forall x :: multiset(Candidates(ts, disposal))[x] == if IsCandidate(x, disposal) then multiset(ts)[x] else 0
  {
    if ts != [] {
      CandidatesCount(ts[1..], disposal);
      assert ts == [ts[0]] + ts[1..];
      assert multiset(ts) == multiset{ts[0]} + multiset(ts[1..]);
    }
  }

  /** What is left of an acquisition for matching: its recorded remainder, or
      all of it when it has not been matched yet. */
  function Remaining(special: map<TradeKey, real>, t: Trade): real {
    if Key(t) in special then special[Key(t)] else t.buy.amount
  }

  /** The matching state of one disposal: the remainders of acquisitions, the
      quantity not matched yet, and the GBP cost of what was matched. */
  datatype Matching = Matching(special: map<TradeKey, real>, unmatched: real, costs: real)

  function Min(a: real, b: real): real {
    if a <= b then a else b
  }

  /** Match the disposal against one candidate acquisition: as much as both
      have left, at the acquisition's own price. */
  function MatchOne(c: Trade, m: Matching, index: Prices): (r: Result<Matching, CalcError>)
    ensures r.Failure? <==> Remaining(m.special, c) > 0.0 && GetPrice(c, index).None?
    ensures r.Failure? ==> r.error == MissingBuyPrice(c.dateTime)
    ensures r.Success? ==>
      && Key(c) in r.value.special
      && r.value.special == m.special[Key(c) := r.value.special[Key(c)]]
      && Remaining(m.special, c) - Remaining(r.value.special, c) == m.unmatched - r.value.unmatched
    ensures r.Success? && Remaining(m.special, c) > 0.0 ==>
      && m.unmatched - r.value.unmatched == Min(Remaining(m.special, c), m.unmatched)
      && r.value.costs == m.costs + (m.unmatched - r.value.unmatched) * GetPrice(c, index).value.rate
    ensures r.Success? && Remaining(m.special, c) <= 0.0 ==>
      r.value.unmatched == m.unmatched && r.value.costs == m.costs
  {
    var remaining := Remaining(m.special, c);
    var special := m.special[Key(c) := remaining];
    if remaining > 0.0 then
      var sell := if remaining <= m.unmatched then m.unmatched - remaining else 0.0;
      var amount := if remaining <= m.unmatched then remaining else m.unmatched;
      match GetPrice(c, index)
      case None => Failure(MissingBuyPrice(c.dateTime))
      case Some(price) =>
        Success(Matching(special[Key(c) := remaining - amount], sell, m.costs + ConvertToGbp(price, amount)))
    else Success(Matching(special, m.unmatched, m.costs))
  }

  /** Match the disposal against the candidates in order; the first missing price stops it. */
  function MatchAll(cs: seq<Trade>, m: Matching, index: Prices): Result<Matching, CalcError> {
    if cs == [] then Success(m)
    else
      match MatchOne(cs[0], m, index)
      case Failure(e) => Failure(e)
      case Success(m') => MatchAll(cs[1..], m', index)
  }

  /** The inner loop of `calculate` over the candidate acquisitions of one disposal. */
  method MatchLater(cands: seq<Trade>, special: map<TradeKey, real>, sell: real, index: Prices)
    returns (r: Result<Matching, CalcError>)
    ensures r == MatchAll(cands, Matching(special, sell, 0.0), index)
  {
    var specialBuys := special;
    var mainPoolSell := sell;
    var specialCosts := 0.0;
    var j := 0;
    while j < |cands|
      invariant 0 <= j <= |cands|
      invariant MatchAll(cands[j..], Matching(specialBuys, mainPoolSell, specialCosts), index)
             == MatchAll(cands, Matching(special, sell, 0.0), index)
    {
      var futureBuy := cands[j];
      ghost var m := Matching(specialBuys, mainPoolSell, specialCosts);
      var remaining := if Key(futureBuy) in specialBuys then specialBuys[Key(futureBuy)] else futureBuy.buy.amount;
      specialBuys := specialBuys[Key(futureBuy) := remaining];
      if remaining > 0.0 {
        var newSell, amount;
        if remaining <= mainPoolSell {
          newSell, amount := mainPoolSell - remaining, remaining;
        } else {
          newSell, amount := 0.0, mainPoolSell;
        }
        specialBuys := specialBuys[Key(futureBuy) := remaining - amount];
        var buyPrice := GetPrice(futureBuy, index);
        if buyPrice.None? {
          assert MatchOne(futureBuy, m, index) == Failure(MissingBuyPrice(futureBuy.dateTime));
          return Failure(MissingBuyPrice(futureBuy.dateTime));
        }
        var costs := ConvertToGbp(buyPrice.value, amount);
        MatchOneTakes(futureBuy, m, index, remaining, amount, newSell, buyPrice.value);
        mainPoolSell := newSell;
        specialCosts := specialCosts + costs;
        MatchAllStep(cands, j, m, Matching(specialBuys, mainPoolSell, specialCosts), index);
      } else {
        MatchOneSpent(futureBuy, m, index, remaining);
        MatchAllStep(cands, j, m, Matching(specialBuys, mainPoolSell, specialCosts), index);
      }
      j := j + 1;
    }
    r := Success(Matching(specialBuys, mainPoolSell, specialCosts));
  }

  /** The step of the loop over the candidates for a candidate with something left. */
  lemma MatchOneTakes(c: Trade, m: Matching, index: Prices, remaining: real, amount: real, sell: real, price: Price)
    requires remaining == Remaining(m.special, c) && remaining > 0.0
    requires remaining <= m.unmatched ==> sell == m.unmatched - remaining && amount == remaining
    requires !(remaining <= m.unmatched) ==> sell == 0.0 && amount == m.unmatched
    requires GetPrice(c, index) == Some(price)
    ensures MatchOne(c, m, index)
         == Success(Matching(m.special[Key(c) := remaining][Key(c) := remaining - amount], sell, m.costs + ConvertToGbp(price, amount)))
  {
  }

  /** The step of the loop over the candidates for a candidate used up. */
  lemma MatchOneSpent(c: Trade, m: Matching, index: Prices, remaining: real)
    requires remaining == Remaining(m.special, c) && remaining <= 0.0
    ensures MatchOne(c, m, index) == Success(Matching(m.special[Key(c) := remaining], m.unmatched, m.costs))
  {
  }

  /** One candidate matched without error: matching goes on from the next. */
  lemma MatchAllStep(cs: seq<Trade>, j: nat, m: Matching, m': Matching, index: Prices)
    requires j < |cs| && MatchOne(cs[j], m, index) == Success(m')
    ensures MatchAll(cs[j..], m, index) == MatchAll(cs[j + 1..], m', index)
  {
    assert cs[j..][1..] == cs[j + 1..];
  }

  /** The pool of `c`, or a fresh empty one (`entry(..).or_insert(Pool::new(..))`). */
  function PoolOf(pools: map<string, PoolState>, c: Currency): PoolState {
    if c in pools then pools[c] else PoolState(c, 0.0, 0.0)
  }

  /** The replay state: pools by currency code, remainders of matched
      acquisitions, and the records produced so far. */
  datatype Run = Run(pools: map<string, PoolState>, special: map<TradeKey, real>, disposals: seq<Disposal>)

  /** The acquisition half of a trade: the unmatched remainder of what it buys
      enters the pool at its GBP cost. */
  datatype Acquisition = Acquisition(pools: map<string, PoolState>, buyPool: Option<PoolState>)

  function Acquire(pools: map<string, PoolState>, special: map<TradeKey, real>, t: Trade, price: Price): Acquisition {
    var c := t.buy.currency;
    if c != GBP then
      var amount := Remaining(special, t);
      var pool := Bought(PoolOf(pools, c), amount, ConvertToGbp(price, amount));
      Acquisition(pools[c := pool], Some(pool))
    else Acquisition(pools, None)
  }

  /** Only the part of an acquisition that no earlier disposal has matched
      enters the pool of what it buys, at that part's GBP cost; no other pool
      changes. */
  lemma AcquireAddsRemainder(pools: map<string, PoolState>, special: map<TradeKey, real>, t: Trade, price: Price)
    ensures var r := Acquire(pools, special, t, price);
      && (t.buy.currency == GBP ==> r.pools == pools && r.buyPool.None?)
      && (t.buy.currency != GBP ==>
        && t.buy.currency in r.pools && r.buyPool == Some(r.pools[t.buy.currency])
        && r.pools[t.buy.currency].total == PoolOf(pools, t.buy.currency).total + Remaining(special, t)
        && r.pools[t.buy.currency].costs == PoolOf(pools, t.buy.currency).costs + ConvertToGbp(price, Remaining(special, t)))
      && forall c :: c != t.buy.currency ==> (c in r.pools <==> c in pools) && (c in pools ==> r.pools[c] == pools[c])
  {
  }

  /** The disposal half of a trade. */
  datatype Disposed = Disposed(pools: map<string, PoolState>, special: map<TradeKey, real>, allowable: real, sellPool: Option<PoolState>)

  /** Match against later acquisitions first, take the rest from the pool. */
  function Dispose(sorted: seq<Trade>, pools: map<string, PoolState>, special: map<TradeKey, real>, t: Trade, index: Prices)
    : Result<Disposed, CalcError>
  {
    var c := t.sell.currency;
    if c != GBP then
      match MatchAll(Candidates(sorted, t), Matching(special, t.sell.amount, 0.0), index)
      case Failure(e) => Failure(e)
      case Success(m) => Settle(pools, c, m)
    else Success(Disposed(pools, special, 0.0, None))
  }

  /** What is left unmatched leaves the pool of `c`; its allowable costs add
      to those of the matched acquisitions. */
  function Settle(pools: map<string, PoolState>, c: Currency, m: Matching): Result<Disposed, CalcError> {
    var pool := PoolOf(pools, c);
    if !SaleDefined(pool, m.unmatched) then Failure(DivisionByZero)
    else
      var sale := Sold(pool, m.unmatched);
      Success(Disposed(pools[c := sale.pool], m.special, sale.consumed + m.costs, Some(sale.pool)))
  }

  /** The record `calculate` pushes for a trade. */
  function Record(t: Trade, price: Price, buyPool: Option<PoolState>, d: Disposed): Disposal {
    Disposal(t, UkTaxYear(t.dateTime), Value(t.buy, price), Value(t.sell, price), Value(t.fee, price),
             price, d.allowable, buyPool, d.sellPool)
  }

  /** One iteration of the loop of `calculate`. */
  function Step(sorted: seq<Trade>, t: Trade, st: Run, index: Prices): Result<Run, CalcError> {
    match GetPrice(t, index)
    case None => Failure(MissingPrice(t))
    case Some(price) =>
      var a := Acquire(st.pools, st.special, t, price);
      match Dispose(sorted, a.pools, st.special, t, index)
      case Failure(e) => Failure(e)
      case Success(d) => Success(Run(d.pools, d.special, st.disposals + [Record(t, price, a.buyPool, d)]))
  }

  /** The loop of `calculate` from trade `i` on. */
  function RunFrom(sorted: seq<Trade>, i: nat, st: Run, index: Prices): Result<Run, CalcError>
    requires i <= |sorted|
    decreases |sorted| - i
  {
    if i == |sorted| then Success(st)
    else
      match Step(sorted, sorted[i], st, index)
      case Failure(e) => Failure(e)
      case Success(st') => RunFrom(sorted, i + 1, st', index)
  }

  /** One step of the replay. */
  lemma RunFromStep(trades: seq<Trade>, i: nat, st: Run, st': Run, index: Prices)
    requires i < |trades| && Step(trades, trades[i], st, index) == Success(st')
    ensures RunFrom(trades, i, st, index) == RunFrom(trades, i + 1, st', index)
  {
  }

  /** A step that fails stops the replay with its error. */
  lemma RunFromFails(trades: seq<Trade>, i: nat, st: Run, e: CalcError, index: Prices)
    requires i < |trades| && Step(trades, trades[i], st, index) == Failure(e)
    ensures RunFrom(trades, i, st, index) == Failure(e)
  {
  }

  const Start := Run(map[], map[], [])

  /** `calculate` as a function: sort, replay, bucket by tax year. */
  function CalculateSpec(trades: seq<Trade>, index: Prices): (r: Result<TaxReport, CalcError>)
    ensures r.Success? ==> multiset(r.value.trades) == multiset(trades) && SortedBy(r.value.trades, TradeTime)
  {
    var sorted := SortBy(trades, TradeTime);
    SortBySorted(trades, TradeTime);
    match RunFrom(sorted, 0, Start, index)
    case Failure(e) => Failure(e)
    case Success(st) => Success(TaxReport(sorted, Buckets(st.disposals), st.pools))
  }

  /** No two keys of the map share a pool object. */
  ghost predicate Owned(pools: map<string, Pool>) {
    forall a, b :: a in pools && b in pools && a != b ==> pools[a] != pools[b]
  }

  function Snapshots(pools: map<string, Pool>): map<string, PoolState>
    reads pools.Values
  {
    map c | c in pools :: pools[c].Snapshot()
  }

  /** `pools.entry(c).or_insert(Pool::new(c))`. */
  method Entry(pools: map<string, Pool>, c: Currency) returns (pools': map<string, Pool>, pool: Pool)
    requires Owned(pools)
    ensures Owned(pools') && c in pools' && pools'[c] == pool
    ensures forall k :: k in pools ==> k in pools' && pools'[k] == pools[k]
    ensures forall k :: k in pools' ==> k in pools || k == c
    ensures c !in pools ==> fresh(pool)
    ensures pool.Snapshot() == PoolOf(Snapshots(pools), c)
    ensures Snapshots(pools') == Snapshots(pools)[c := PoolOf(Snapshots(pools), c)]
  {
    if c in pools {
      pool := pools[c];
      pools' := pools;
    } else {
      pool := new Pool(c);
      pools' := pools[c := pool];
    }
  }

  /** `calculate`: sort, replay the trades on pool objects, bucket the records
      by tax year. */
  method Calculate(trades: seq<Trade>, index: Prices) returns (r: Result<TaxReport, CalcError>)
    ensures r == CalculateSpec(trades, index)
  {
    var sorted := SortBy(trades, TradeTime);
    var run := Replay(sorted, index);
    if run.Failure? {
      return Failure(run.error);
    }
    var report := NewTaxReport(sorted, run.value.disposals, run.value.pools);
    BucketedUnique(report.years, run.value.disposals);
    r := Success(report);
  }

  /** The loop of `calculate`: the pools are objects updated in place, the
      remainders of matched acquisitions a map updated in place. */
  method Replay(sorted: seq<Trade>, index: Prices) returns (r: Result<Run, CalcError>)
    ensures r == RunFrom(sorted, 0, Start, index)
  {
    var pools: map<string, Pool> := map[];
    var special: map<TradeKey, real> := map[];
    var disposals: seq<Disposal> := [];
    var i := 0;
    while i < |sorted|
      invariant 0 <= i <= |sorted|
      invariant Owned(pools)
      invariant forall k :: k in pools ==> fresh(pools[k])
      invariant RunFrom(sorted, i, Run(Snapshots(pools), special, disposals), index) == RunFrom(sorted, 0, Start, index)
    {
      ghost var before := Run(Snapshots(pools), special, disposals);
      var err;
      pools, special, disposals, err := TradeInPlace(sorted, sorted[i], pools, special, disposals, index);
      if err.Some? {
        RunFromFails(sorted, i, before, err.value, index);
        return Failure(err.value);
      }
      RunFromStep(sorted, i, before, Run(Snapshots(pools), special, disposals), index);
      i := i + 1;
    }
    r := Success(Run(Snapshots(pools), special, disposals));
  }

  /** The body of the loop of `calculate` for one trade. */
  method TradeInPlace(sorted: seq<Trade>, trade: Trade, pools: map<string, Pool>, special: map<TradeKey, real>,
                      disposals: seq<Disposal>, index: Prices)
    returns (pools': map<string, Pool>, special': map<TradeKey, real>, disposals': seq<Disposal>, err: Option<CalcError>)
    requires Owned(pools)
    modifies pools.Values
    ensures Owned(pools')
    ensures forall k :: k in pools' ==> (k in pools && pools'[k] == pools[k]) || fresh(pools'[k])
    ensures var step := Step(sorted, trade, Run(old(Snapshots(pools)), special, disposals), index);
      && (err.Some? ==> step == Failure(err.value))
      && (err.None? ==> step == Success(Run(Snapshots(pools'), special', disposals')))
  {
    pools', special', disposals' := pools, special, disposals;
    var found := GetPrice(trade, index);
    if found.None? {
      return pools', special', disposals', Some(MissingPrice(trade));
    }
    var price := found.value;
    var buyPool;
    pools', buyPool := AcquireInPlace(pools, special, trade, price);
    ghost var a := Acquire(old(Snapshots(pools)), special, trade, price);
    var disposed;
    pools', disposed := DisposeInPlace(sorted, pools', special, trade, index);
    if disposed.Failure? {
      return pools', special', disposals', Some(disposed.error);
    }
    var d := disposed.value;
    special' := d.special;
    var sellValue := if trade.sell.currency == GBP then trade.sell.amount else ConvertToGbp(price, trade.sell.amount);
    var buyValue := if trade.buy.currency == GBP then trade.buy.amount else ConvertToGbp(price, trade.buy.amount);
    var feeValue := if trade.fee.currency == GBP then trade.fee.amount else ConvertToGbp(price, trade.fee.amount);
    var taxYear := UkTaxYear(trade.dateTime);
    disposals' := disposals + [Disposal(trade, taxYear, buyValue, sellValue, feeValue, price, d.allowable, buyPool, d.sellPool)];
    err := None;
  }

  /** The acquisition half of the loop body. */
  method AcquireInPlace(pools: map<string, Pool>, special: map<TradeKey, real>, trade: Trade, price: Price)
    returns (pools': map<string, Pool>, buyPool: Option<PoolState>)
    requires Owned(pools)
    modifies pools.Values
    ensures Owned(pools')
    ensures forall k :: k in pools' ==> (k in pools && pools'[k] == pools[k]) || fresh(pools'[k])
    ensures Acquisition(Snapshots(pools'), buyPool) == Acquire(old(Snapshots(pools)), special, trade, price)
  {
    pools' := pools;
    buyPool := None;
    if trade.buy.currency != GBP {
      var buyAmount := if Key(trade) in special then special[Key(trade)] else trade.buy.amount;
      var costs := ConvertToGbp(price, buyAmount);
      var pool;
      pools', pool := Entry(pools, trade.buy.currency);
      ghost var entered := Snapshots(pools');
      assert entered == old(Snapshots(pools))[trade.buy.currency := PoolOf(old(Snapshots(pools)), trade.buy.currency)];
      assert pool.Snapshot() == PoolOf(old(Snapshots(pools)), trade.buy.currency);
      BuyInPlace(pools', trade.buy.currency, buyAmount, costs);
      buyPool := Some(pool.Snapshot());
      ghost var bought := Bought(PoolOf(old(Snapshots(pools)), trade.buy.currency), buyAmount, costs);
      assert pool.Snapshot() == bought;
      UpdateTwice(old(Snapshots(pools)), trade.buy.currency, PoolOf(old(Snapshots(pools)), trade.buy.currency), bought);
    }
  }

  /** The disposal half of the loop body; on success the pools' new values
      are in `Snapshots(pools')`. */
  method DisposeInPlace(sorted: seq<Trade>, pools: map<string, Pool>, special: map<TradeKey, real>, trade: Trade, index: Prices)
    returns (pools': map<string, Pool>, r: Result<Disposed, CalcError>)
    requires Owned(pools)
    modifies pools.Values
    ensures Owned(pools')
    ensures forall k :: k in pools' ==> (k in pools && pools'[k] == pools[k]) || fresh(pools'[k])
    ensures r.Failure? ==> r == Dispose(sorted, old(Snapshots(pools)), special, trade, index)
    ensures r.Success? ==>
      r == Dispose(sorted, old(Snapshots(pools)), special, trade, index) && r.value.pools == Snapshots(pools')
  {
    pools' := pools;
    if trade.sell.currency == GBP {
      return pools', Success(Disposed(Snapshots(pools'), special, 0.0, None));
    }
    var cands := Candidates(sorted, trade);
    var matched := MatchLater(cands, special, trade.sell.amount, index);
    if matched.Failure? {
      return pools', Failure(matched.error);
    }
    pools', r := SettleInPlace(pools, trade.sell.currency, matched.value);
  }

  /** The sale from the pool that follows the matching. */
  method SettleInPlace(pools: map<string, Pool>, c: Currency, m: Matching)
    returns (pools': map<string, Pool>, r: Result<Disposed, CalcError>)
    requires Owned(pools)
    modifies pools.Values
    ensures Owned(pools')
    ensures forall k :: k in pools' ==> (k in pools && pools'[k] == pools[k]) || fresh(pools'[k])
    ensures r == Settle(old(Snapshots(pools)), c, m)
    ensures r.Success? ==> r.value.pools == Snapshots(pools')
  {
    var sale;
    pools', sale := SellFromPool(pools, c, m.unmatched);
    if sale.None? {
      return pools', Failure(DivisionByZero);
    }
    r := Success(Disposed(Snapshots(pools'), m.special, sale.value.consumed + m.costs, Some(sale.value.pool)));
  }

  /** Take `sell` out of the pool of `c`, creating the pool when there is none. */
  method SellFromPool(pools: map<string, Pool>, c: Currency, sell: real) returns (pools': map<string, Pool>, r: Option<Sale>)
    requires Owned(pools)
    modifies pools.Values
    ensures Owned(pools')
    ensures forall k :: k in pools' ==> (k in pools && pools'[k] == pools[k]) || fresh(pools'[k])
    ensures r.None? <==> !SaleDefined(PoolOf(old(Snapshots(pools)), c), sell)
    ensures r.None? ==> Snapshots(pools') == old(Snapshots(pools))[c := PoolOf(old(Snapshots(pools)), c)]
    ensures r.Some? ==>
      r.value == Sold(PoolOf(old(Snapshots(pools)), c), sell) && Snapshots(pools') == old(Snapshots(pools))[c := r.value.pool]
  {
    var pool;
    pools', pool := Entry(pools, c);
    if !SaleDefined(pool.Snapshot(), sell) {
      return pools', None;
    }
    ghost var before := PoolOf(old(Snapshots(pools)), c);
    var consumed := SellInPlace(pools', c, sell);
    r := Some(Sale(pool.Snapshot(), consumed));
    assert r.value == Sold(before, sell);
    UpdateTwice(old(Snapshots(pools)), c, before, r.value.pool);
  }

  /** A second update of the same key overrides the first. */
  lemma UpdateTwice(m: map<string, PoolState>, c: string, x: PoolState, y: PoolState)
    ensures m[c := x][c := y] == m[c := y]
  {
  }

  /** `pool.buy(..)` on the pool of `c`, leaving every other pool as it was. */
  method BuyInPlace(pools: map<string, Pool>, c: Currency, buy: real, cost: real)
    requires Owned(pools) && c in pools
    modifies pools[c]
    ensures pools[c].Snapshot() == Bought(old(pools[c].Snapshot()), buy, cost)
    ensures Snapshots(pools) == old(Snapshots(pools))[c := pools[c].Snapshot()]
  {
    pools[c].Buy(buy, cost);
    assert forall k :: k in pools && k != c ==> pools[k] != pools[c];
  }

  /** `pool.sell(..)` on the pool of `c`, leaving every other pool as it was. */
  method SellInPlace(pools: map<string, Pool>, c: Currency, sell: real) returns (consumed: real)
    requires Owned(pools) && c in pools && SaleDefined(pools[c].Snapshot(), sell)
    modifies pools[c]
    ensures Sold(old(pools[c].Snapshot()), sell) == Sale(pools[c].Snapshot(), consumed)
    ensures Snapshots(pools) == old(Snapshots(pools))[c := pools[c].Snapshot()]
  {
    consumed := pools[c].Sell(sell);
    assert forall k :: k in pools && k != c ==> pools[k] != pools[c];
  }
}
