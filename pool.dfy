/** The section 104 pool of one asset: how much of it is held and the
    allowable cost (in GBP) of what is held. */
module Pooling {
  import opened Trades

  /** A pool's value, as `Pool::clone` snapshots it: `total` is in
      `currency`, `costs` in GBP. */
  datatype PoolState = PoolState(currency: Currency, total: real, costs: real) {

    /** `Pool::cost_basis`: the average cost of one unit, or zero for an empty pool. */
    function CostBasis(): (r: real)
      ensures total == 0.0 ==> r == 0.0
      ensures total != 0.0 ==> r * total == costs
    {
      if total == 0.0 then 0.0 else costs / total
    }
  }

  /** The pool after acquiring `buy` units at allowable cost `cost`. */
  function Bought(p: PoolState, buy: real, cost: real): PoolState {
    PoolState(p.currency, p.total + buy, p.costs + cost)
  }

  /** `Pool::sell` is defined unless it takes the proportional branch with an
      empty pool, where `sell / total` divides by zero and panics. */
  predicate SaleDefined(p: PoolState, sell: real) {
    sell > p.total || p.total != 0.0
  }

  /** The pool after a sale and the allowable cost the sale consumed. */
  datatype Sale = Sale(pool: PoolState, consumed: real)

  /** `Pool::sell`: a sale within the holding takes its proportional share of
      the costs; a sale beyond the holding takes all of them and empties the pool. */
  function Sold(p: PoolState, sell: real): (s: Sale)
    requires SaleDefined(p, sell)
    ensures s.pool.currency == p.currency
    ensures s.consumed + s.pool.costs == p.costs
    ensures s.pool.total >= 0.0
    ensures sell > p.total ==> s.consumed == p.costs && s.pool.total == 0.0 && s.pool.costs == 0.0
    ensures sell <= p.total ==> s.pool.total == p.total - sell && s.consumed * p.total == p.costs * sell
  {
    if sell > p.total then Sale(PoolState(p.currency, 0.0, 0.0), p.costs)
    else
      var consumed := p.costs * (sell / p.total);
      Sale(PoolState(p.currency, p.total - sell, p.costs - consumed), consumed)
  }

  /** Section 104 averaging: a sale that leaves something in the pool does not
      change the average cost of what is left. */
  lemma SaleKeepsCostBasis(p: PoolState, sell: real)
    requires 0.0 < p.total && sell < p.total
    ensures SaleDefined(p, sell)
    ensures Sold(p, sell).pool.CostBasis() == p.CostBasis()
  {
    var s := Sold(p, sell);
    var left := p.total - sell;
    var basis := p.costs / p.total;
    assert s.consumed == basis * sell;
    assert s.pool.costs == basis * left;
    assert s.pool.costs / left == basis;
  }

  /** With non-negative holdings and costs, a non-negative sale consumes
      between nothing and all of the costs, and leaves non-negative costs. */
  lemma SaleWithinCosts(p: PoolState, sell: real)
    requires 0.0 <= sell && 0.0 <= p.costs && SaleDefined(p, sell)
    ensures 0.0 <= Sold(p, sell).consumed <= p.costs
    ensures 0.0 <= Sold(p, sell).pool.costs
  {
    var s := Sold(p, sell);
    if sell <= p.total {
      var f := sell / p.total;
      assert 0.0 <= f <= 1.0;
      assert s.consumed == p.costs * f;
      assert p.costs * f <= p.costs * 1.0;
    }
  }

  /** Buying and then selling the same quantity from a pool that held
      something restores the holding, and the sale consumes the pool's new
      average cost of that quantity. */
  lemma BuyThenSell(p: PoolState, buy: real, cost: real)
    requires 0.0 < p.total && 0.0 <= buy
    ensures SaleDefined(Bought(p, buy, cost), buy)
    ensures Sold(Bought(p, buy, cost), buy).pool.total == p.total
    ensures Sold(Bought(p, buy, cost), buy).consumed == Bought(p, buy, cost).CostBasis() * buy
  {
  }

  /** A pool whose fields `Pool::buy` and `Pool::sell` update in place. */
  class Pool {
    const currency: Currency
    var total: real
    var costs: real

    function Snapshot(): PoolState
      reads this
    {
      PoolState(currency, total, costs)
    }

    /** `Pool::new`: nothing held, nothing spent. */
    constructor (currency: Currency)
      ensures Snapshot() == PoolState(currency, 0.0, 0.0)
    {
      this.currency := currency;
      total := 0.0;
      costs := 0.0;
    }

    /** `Pool::buy`: the holding grows by `buy`, the costs by `cost`. */
    method Buy(buy: real, cost: real)
      modifies this
      ensures total == old(total) + buy && costs == old(costs) + cost
      ensures Snapshot() == Bought(old(Snapshot()), buy, cost)
    {
      total := total + buy;
      costs := costs + cost;
    }

    /** `Pool::sell`: returns the allowable cost the sale consumes. */
    method Sell(sell: real) returns (consumed: real)
      requires SaleDefined(Snapshot(), sell)
      modifies this
      ensures Sale(Snapshot(), consumed) == Sold(old(Snapshot()), sell)
    {
      var newTotal, newCosts;
      if sell > total {
        consumed, newTotal, newCosts := costs, 0.0, 0.0;
      } else {
        var perc := sell / total;
        consumed := costs * perc;
        newTotal := total - sell;
        newCosts := costs - consumed;
      }
      total := newTotal;
      costs := newCosts;
    }
  }
}
