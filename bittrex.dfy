/** The Bittrex order history export: one CSV record to one trade. */
module Bittrex {
  import opened Wrappers
  import opened Calendar
  import opened Text
  import opened Trades
  import opened Exchanges

  /** A row of the export, as deserialised. */
  datatype BittrexRecord = BittrexRecord(
    orderUuid: string,
    exchange: string,
    orderType: string,
    quantity: real,
    limit: real,
    commissionPaid: real,
    price: real,
    openedAt: string,
    closedAt: string)

  const BittrexName: string := "Bittrex"

  /** `TryFrom<Record> for Trade`. `parseDate` stands for chrono's
      `parse_from_str` with the `%m/%d/%Y %-I:%M:%S %p` format, applied to the
      closing time and unwrapped, so a bad date panics as well. The market
      reads quote first, base second. */
  function BittrexTrade(rec: BittrexRecord, parseDate: string -> Option<NaiveDateTime>): Result<Trade, ImportError>
  {
    match parseDate(rec.closedAt)
    case None => Failure(UnparsableDateTime(rec.closedAt))
    case Some(dateTime) =>
      match FirstTwo(rec.exchange)
      case None => Failure(MissingCurrency("base currency"))
      case Some((quoteCurrency, baseCurrency)) =>
        var baseAmount := Money(rec.quantity, baseCurrency);
        var quoteAmount := Money(rec.price, quoteCurrency);
        var fee := Money(rec.commissionPaid, quoteCurrency);
        if rec.orderType == "LIMIT_BUY" then
          Success(Trade(dateTime, Buy, baseAmount, quoteAmount, fee, rec.limit, Some(BittrexName)))
        else if rec.orderType == "LIMIT_SELL" then
          Success(Trade(dateTime, Sell, quoteAmount, baseAmount, fee, rec.limit, Some(BittrexName)))
        else Failure(InvalidOrderType(rec.orderType))
  }

  /** The import succeeds exactly when the closing date parses, the market
      names a base currency and the order type is LIMIT_BUY or LIMIT_SELL;
      every failure is a panic, checked in that order. */
  lemma BittrexOutcome(rec: BittrexRecord, parseDate: string -> Option<NaiveDateTime>)
    ensures var r := BittrexTrade(rec, parseDate);
      && (r.Success? <==>
            parseDate(rec.closedAt).Some? && MarketSeparator in rec.exchange && rec.orderType in {"LIMIT_BUY", "LIMIT_SELL"})
      && (r.Failure? ==> r.error.IsPanic())
      && (parseDate(rec.closedAt).None? ==> r == Failure(UnparsableDateTime(rec.closedAt)))
      && (parseDate(rec.closedAt).Some? && MarketSeparator !in rec.exchange ==> r == Failure(MissingCurrency("base currency")))
      && (parseDate(rec.closedAt).Some? && MarketSeparator in rec.exchange && rec.orderType !in {"LIMIT_BUY", "LIMIT_SELL"} ==>
            r == Failure(InvalidOrderType(rec.orderType)))
  {
    FirstTwoPresent(rec.exchange);
  }

  /** A successful import: the order type decides the kind; the quantity is
      the base leg and the price the quote leg; the commission is in the
      quote currency, the rate is the limit, the date the closing time. */
  lemma BittrexLegs(rec: BittrexRecord, parseDate: string -> Option<NaiveDateTime>)
    requires BittrexTrade(rec, parseDate).Success?
    ensures var t := BittrexTrade(rec, parseDate).value;
      var parts := Split(rec.exchange, MarketSeparator);
      && |parts| >= 2
      && t.dateTime == parseDate(rec.closedAt).value
      && (t.kind == Buy <==> rec.orderType == "LIMIT_BUY")
      && (t.kind == Buy ==> t.buy == Money(rec.quantity, parts[1]) && t.sell == Money(rec.price, parts[0]))
      && (t.kind == Sell ==> t.sell == Money(rec.quantity, parts[1]) && t.buy == Money(rec.price, parts[0]))
      && t.fee == Money(rec.commissionPaid, parts[0])
      && t.rate == rec.limit
      && t.exchange == Some(BittrexName)
  {
  }

  /** A trade that a Bittrex row can describe: separator-free currency
      codes, the fee in the quote currency, tagged with the exchange. */
  predicate BittrexShaped(t: Trade) {
    && MarketSeparator !in t.buy.currency && MarketSeparator !in t.sell.currency
    && t.fee.currency == (if t.kind == Buy then t.sell.currency else t.buy.currency)
    && t.exchange == Some(BittrexName)
  }

  /** The row that describes `t`, closed at `closedAt`. */
  function BittrexRecordOf(t: Trade, orderUuid: string, openedAt: string, closedAt: string): BittrexRecord {
    match t.kind
    case Buy =>
      BittrexRecord(orderUuid, t.sell.currency + [MarketSeparator] + t.buy.currency, "LIMIT_BUY",
                    t.buy.amount, t.rate, t.fee.amount, t.sell.amount, openedAt, closedAt)
    case Sell =>
      BittrexRecord(orderUuid, t.buy.currency + [MarketSeparator] + t.sell.currency, "LIMIT_SELL",
                    t.sell.amount, t.rate, t.fee.amount, t.buy.amount, openedAt, closedAt)
  }

  /** Importing the row written for a trade gives that trade back. */
  lemma BittrexRoundTrip(t: Trade, orderUuid: string, openedAt: string, closedAt: string,
                         parseDate: string -> Option<NaiveDateTime>)
    requires BittrexShaped(t)
    requires parseDate(closedAt) == Some(t.dateTime)
    ensures BittrexTrade(BittrexRecordOf(t, orderUuid, openedAt, closedAt), parseDate) == Success(t)
  {
    match t.kind
    case Buy => FirstTwoOfPair(t.sell.currency, t.buy.currency);
    case Sell => FirstTwoOfPair(t.buy.currency, t.sell.currency);
  }

  /** The order id and the opening time are never read, nor anything of the
      market after its second piece: the date is the closing time. */
  lemma BittrexIgnores(a: BittrexRecord, b: BittrexRecord, parseDate: string -> Option<NaiveDateTime>)
    requires FirstTwo(a.exchange) == FirstTwo(b.exchange)
    requires a.orderType == b.orderType && a.closedAt == b.closedAt
    requires a.quantity == b.quantity && a.limit == b.limit && a.commissionPaid == b.commissionPaid && a.price == b.price
    ensures BittrexTrade(a, parseDate) == BittrexTrade(b, parseDate)
  {
  }
}
