/** Currencies, money and trades: the values the importers produce and the
    capital-gains engine consumes. */
module Trades {
  import opened Wrappers
  import opened Calendar

  /** A currency, identified by its code ("BTC", "GBP", ...). */
  type Currency = string

  const GBP: Currency := "GBP"

  /** An exact-decimal amount tagged with its currency. */
  datatype Money = Money(amount: real, currency: Currency)

  datatype TradeKind = Buy | Sell

  /** "Sold `sell` to acquire `buy`" at `dateTime`; `kind` says which leg is
      the tracked asset, `rate` is the price agreed in the trade. */
  datatype Trade = Trade(
    dateTime: NaiveDateTime,
    kind: TradeKind,
    buy: Money,
    sell: Money,
    fee: Money,
    rate: real,
    exchange: Option<string>)

  /** The identity of a trade across one calculation run. */
  datatype TradeKey = TradeKey(trade: Trade)

  function Key(t: Trade): TradeKey {
    TradeKey(t)
  }
}
