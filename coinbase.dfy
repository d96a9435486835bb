/** The Coinbase Pro fills export: one CSV record to one trade. */
module Coinbase {
  import opened Wrappers
  import opened Calendar
  import opened Text
  import opened Trades
  import opened Exchanges

  /** A row of the export, as deserialised (the `price/fee/total unit`
      column is `unit`). */
  datatype CoinbaseRecord = CoinbaseRecord(
    tradeId: string,
    product: string,
    side: string,
    createdAt: string,
    size: real,
    sizeUnit: string,
    price: real,
    fee: real,
    total: real,
    unit: string)

  const CoinbasePro: string := "Coinbase Pro"

  /** `TryFrom<Record> for Trade`. `parseDate` stands for chrono's
      `parse_from_str` with the `%Y-%m-%dT%H:%M:%S%.fZ` format; its failure
      is returned, while a product without a quote currency and an unknown
      side panic. The product reads base first, quote second; a BUY sells
      the quote total negated. */
  function CoinbaseTrade(rec: CoinbaseRecord, parseDate: string -> Option<NaiveDateTime>): Result<Trade, ImportError>
  {
    match parseDate(rec.createdAt)
    case None => Failure(DateTimeParse(rec.createdAt))
    case Some(dateTime) =>
      match FirstTwo(rec.product)
      case None => Failure(MissingCurrency("quote currency"))
      case Some((baseCurrency, quoteCurrency)) =>
        var baseAmount := Money(rec.size, baseCurrency);
        var quoteAmount := Money(rec.total, quoteCurrency);
        var fee := Money(rec.fee, rec.unit);
        if rec.side == "BUY" then
          Success(Trade(dateTime, Buy, baseAmount, Money(quoteAmount.amount * -1.0, quoteCurrency), fee, rec.price, Some(CoinbasePro)))
        else if rec.side == "SELL" then
          Success(Trade(dateTime, Sell, quoteAmount, baseAmount, fee, rec.price, Some(CoinbasePro)))
        else Failure(InvalidOrderType(rec.side))
  }

  /** The import succeeds exactly when the date parses, the product names a
      quote currency and the side is BUY or SELL; otherwise the date error
      comes first and is returned, then the two panics in that order. */
  lemma CoinbaseOutcome(rec: CoinbaseRecord, parseDate: string -> Option<NaiveDateTime>)
    ensures var r := CoinbaseTrade(rec, parseDate);
      && (r.Success? <==>
            parseDate(rec.createdAt).Some? && MarketSeparator in rec.product && rec.side in {"BUY", "SELL"})
      && (parseDate(rec.createdAt).None? ==> r == Failure(DateTimeParse(rec.createdAt)) && !r.error.IsPanic())
      && (parseDate(rec.createdAt).Some? && MarketSeparator !in rec.product ==>
            r == Failure(MissingCurrency("quote currency")) && r.error.IsPanic())
      && (parseDate(rec.createdAt).Some? && MarketSeparator in rec.product && rec.side !in {"BUY", "SELL"} ==>
            r == Failure(InvalidOrderType(rec.side)) && r.error.IsPanic())
  {
    FirstTwoPresent(rec.product);
  }

  /** A successful import: the side decides the kind; the size is the base
      leg, the total the quote leg (negated when it is the sold leg of a
      BUY); fee, rate, date and exchange come from their own columns. */
  lemma CoinbaseLegs(rec: CoinbaseRecord, parseDate: string -> Option<NaiveDateTime>)
    requires CoinbaseTrade(rec, parseDate).Success?
    ensures var t := CoinbaseTrade(rec, parseDate).value;
      var parts := Split(rec.product, MarketSeparator);
      && |parts| >= 2
      && t.dateTime == parseDate(rec.createdAt).value
      && (t.kind == Buy <==> rec.side == "BUY")
      && (t.kind == Buy ==> t.buy == Money(rec.size, parts[0]) && t.sell == Money(-rec.total, parts[1]))
      && (t.kind == Sell ==> t.sell == Money(rec.size, parts[0]) && t.buy == Money(rec.total, parts[1]))
      && t.fee == Money(rec.fee, rec.unit)
      && t.rate == rec.price
      && t.exchange == Some(CoinbasePro)
  {
  }

  /** A trade that a Coinbase row can describe: currency codes free of the
      separator, and tagged with the exchange. */
  predicate CoinbaseShaped(t: Trade) {
    && MarketSeparator !in t.buy.currency && MarketSeparator !in t.sell.currency
    && t.exchange == Some(CoinbasePro)
  }

  /** The row that describes `t`, with its date written as `createdAt`. */
  function CoinbaseRecordOf(t: Trade, tradeId: string, createdAt: string): CoinbaseRecord {
    match t.kind
    case Buy =>
      CoinbaseRecord(tradeId, t.buy.currency + [MarketSeparator] + t.sell.currency, "BUY", createdAt,
                     t.buy.amount, t.buy.currency, t.rate, t.fee.amount, -t.sell.amount, t.fee.currency)
    case Sell =>
      CoinbaseRecord(tradeId, t.sell.currency + [MarketSeparator] + t.buy.currency, "SELL", createdAt,
                     t.sell.amount, t.sell.currency, t.rate, t.fee.amount, t.buy.amount, t.fee.currency)
  }

  /** Importing the row written for a trade gives that trade back. */
  lemma CoinbaseRoundTrip(t: Trade, tradeId: string, createdAt: string, parseDate: string -> Option<NaiveDateTime>)
    requires CoinbaseShaped(t)
    requires parseDate(createdAt) == Some(t.dateTime)
    ensures CoinbaseTrade(CoinbaseRecordOf(t, tradeId, createdAt), parseDate) == Success(t)
  {
    match t.kind
    case Buy =>
      FirstTwoOfPair(t.buy.currency, t.sell.currency);
      assert -t.sell.amount * -1.0 == t.sell.amount;
    case Sell =>
      FirstTwoOfPair(t.sell.currency, t.buy.currency);
  }

  /** The trade id and the size unit column are never read, nor anything of
      the product after its second piece. */
  lemma CoinbaseIgnores(a: CoinbaseRecord, b: CoinbaseRecord, parseDate: string -> Option<NaiveDateTime>)
    requires FirstTwo(a.product) == FirstTwo(b.product)
    requires a.side == b.side && a.createdAt == b.createdAt
    requires a.size == b.size && a.price == b.price && a.fee == b.fee && a.total == b.total && a.unit == b.unit
    ensures CoinbaseTrade(a, parseDate) == CoinbaseTrade(b, parseDate)
  {
  }

  /** The sample row in the importer's header comment: a sale of 5.41307455
      ETH for 549.721646342011 GBP at 101.86, with a fee of 1.654127320989 GBP. */
  lemma CoinbaseSample(parseDate: string -> Option<NaiveDateTime>, at: NaiveDateTime)
    requires parseDate("2018-11-20T21:39:45.667Z") == Some(at)
    ensures CoinbaseTrade(CoinbaseRecord("155157", "ETH-GBP", "SELL", "2018-11-20T21:39:45.667Z", 5.41307455, "ETH",
                                         101.86, 1.654127320989, 549.721646342011, "GBP"), parseDate)
         == Success(Trade(at, Sell, Money(549.721646342011, "GBP"), Money(5.41307455, "ETH"),
                          Money(1.654127320989, "GBP"), 101.86, Some(CoinbasePro)))
  {
    var t := Trade(at, Sell, Money(549.721646342011, "GBP"), Money(5.41307455, "ETH"),
                   Money(1.654127320989, "GBP"), 101.86, Some(CoinbasePro));
    assert "ETH" + [MarketSeparator] + "GBP" == "ETH-GBP";
    CoinbaseRoundTrip(t, "155157", "2018-11-20T21:39:45.667Z", parseDate);
  }
}
