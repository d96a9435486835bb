/** Trades fetched from the Binance account trade list, converted to
    trade records for one market. */
module Binance {
  import opened Wrappers
  import opened Calendar
  import opened Text
  import opened Trades
  import opened Exchanges

  const TwoTo63: int := 0x8000_0000_0000_0000
  const TwoTo64: int := 0x1_0000_0000_0000_0000

  /** Rust's `u64`. */
  type U64 = x: int | 0 <= x < TwoTo64

  /** One entry of the account trade list; `time` is in milliseconds since
      the Unix epoch. */
  datatype TradeHistory = TradeHistory(
    id: U64,
    price: real,
    qty: real,
    commission: real,
    commissionAsset: string,
    time: U64,
    isBuyer: bool,
    isMaker: bool,
    isBestMatch: bool)

  /** A fetched trade together with the market's two currencies. */
  datatype BinanceTrade = BinanceTrade(base: Currency, quote: Currency, trade: TradeHistory)

  const BinanceName: string := "Binance"

  /** `x as i64` for a `u64`: the same bits read in two's complement. */
  function AsI64(x: U64): int {
    if x < TwoTo63 then x else x - TwoTo64
  }

  /** `as u32`: the low 32 bits. */
  function AsU32(x: int): int {
    x % 0x1_0000_0000
  }

  /** Rust's `/` on signed integers: the quotient truncated toward zero. */
  function TruncDiv(a: int, b: int): int
    requires b > 0
  {
    if a >= 0 then a / b else -((-a) / b)
  }

  /** A millisecond time as the seconds and nanoseconds that
      `NaiveDateTime::from_timestamp` takes. */
  function SplitMillis(time: U64): (int, int) {
    (TruncDiv(AsI64(time), 1000), AsU32(time % 1000 * 1_000_000))
  }

  /** Seconds and nanoseconds back to milliseconds. */
  function Millis(seconds: int, nanos: int): int {
    seconds * 1000 + nanos / 1_000_000
  }

  /** The nanoseconds are whole milliseconds below one second; up to 2^63 ms
      the split loses nothing. From 2^63 ms on, the cast to `i64` wraps and
      the seconds are not positive. */
  lemma SplitMillisFacts(time: U64)
    ensures var (seconds, nanos) := SplitMillis(time);
      && 0 <= nanos < 1_000_000_000 && nanos % 1_000_000 == 0
      && (time < TwoTo63 ==> seconds >= 0 && Millis(seconds, nanos) == time)
      && (time >= TwoTo63 ==> seconds <= 0)
  {
  }

  /** Splitting the milliseconds of a non-negative time, whole milliseconds
      below one second, gives that time back. */
  lemma SplitOfMillis(seconds: int, nanos: int)
    requires seconds >= 0 && 0 <= nanos < 1_000_000_000 && nanos % 1_000_000 == 0
    requires Millis(seconds, nanos) < TwoTo63
    ensures SplitMillis(Millis(seconds, nanos) as U64) == (seconds, nanos)
  {
    var time := Millis(seconds, nanos);
    assert time / 1000 == seconds && time % 1000 == nanos / 1_000_000;
  }

  /** `TryFrom<&BinanceTrade> for Trade`. `fromTimestamp` stands for
      `NaiveDateTime::from_timestamp`, which panics on an out-of-range time;
      it never fails otherwise. The base leg is the quantity, the quote leg
      the quantity at the price; the buyer side buys the base. */
  function BinanceToTrade(bt: BinanceTrade, fromTimestamp: (int, int) -> Option<NaiveDateTime>): Result<Trade, ImportError>
  {
    var trade := bt.trade;
    var (seconds, nanos) := SplitMillis(trade.time);
    match fromTimestamp(seconds, nanos)
    case None => Failure(TimestampOutOfRange(seconds, nanos))
    case Some(dateTime) =>
      var baseAmount := Money(trade.qty, bt.base);
      var quoteAmount := Money(trade.qty * trade.price, bt.quote);
      var fee := Money(trade.commission, trade.commissionAsset);
      if trade.isBuyer then Success(Trade(dateTime, Buy, baseAmount, quoteAmount, fee, trade.price, Some(BinanceName)))
      else Success(Trade(dateTime, Sell, quoteAmount, baseAmount, fee, trade.price, Some(BinanceName)))
  }

  /** The conversion fails, by a panic, exactly when the time is out of range. */
  lemma BinanceOutcome(bt: BinanceTrade, fromTimestamp: (int, int) -> Option<NaiveDateTime>)
    ensures var r := BinanceToTrade(bt, fromTimestamp);
      && (r.Success? <==> fromTimestamp(SplitMillis(bt.trade.time).0, SplitMillis(bt.trade.time).1).Some?)
      && (r.Failure? ==> r == Failure(TimestampOutOfRange(SplitMillis(bt.trade.time).0, SplitMillis(bt.trade.time).1))
                         && r.error.IsPanic())
  {
  }

  /** A converted trade: the buyer side is a Buy of the base paid in the
      quote, the seller side a Sell of the base for the quote; either way the
      quote leg is the base leg at the trade's rate. The fee is the
      commission in its own asset, the exchange is Binance. */
  lemma BinanceLegs(bt: BinanceTrade, fromTimestamp: (int, int) -> Option<NaiveDateTime>)
    requires BinanceToTrade(bt, fromTimestamp).Success?
    ensures var t := BinanceToTrade(bt, fromTimestamp).value;
      && (t.kind == Buy <==> bt.trade.isBuyer)
      && (t.kind == Buy ==> t.buy == Money(bt.trade.qty, bt.base) && t.sell.currency == bt.quote
                            && t.sell.amount == t.buy.amount * t.rate)
      && (t.kind == Sell ==> t.sell == Money(bt.trade.qty, bt.base) && t.buy.currency == bt.quote
                             && t.buy.amount == t.sell.amount * t.rate)
      && t.rate == bt.trade.price
      && t.fee == Money(bt.trade.commission, bt.trade.commissionAsset)
      && t.exchange == Some(BinanceName)
  {
  }

  /** The buyer and the seller of the same fill see the same two legs the
      other way round. */
  lemma BinanceSidesMirror(bt: BinanceTrade, fromTimestamp: (int, int) -> Option<NaiveDateTime>)
    requires BinanceToTrade(bt, fromTimestamp).Success?
    ensures var other := bt.(trade := bt.trade.(isBuyer := !bt.trade.isBuyer));
      var t, u := BinanceToTrade(bt, fromTimestamp).value, BinanceToTrade(other, fromTimestamp).value;
      && BinanceToTrade(other, fromTimestamp).Success?
      && u.kind != t.kind && u.buy == t.sell && u.sell == t.buy
      && u.dateTime == t.dateTime && u.fee == t.fee && u.rate == t.rate && u.exchange == t.exchange
  {
  }

  /** `map(..).collect::<Result<Vec<_>, _>>()` over the fetched trades: each
      converted by `convert` and turned into a record by `toRecord`
      (`TradeRecord::from`), stopping at the first failure. */
  function CollectRecords<R>(trades: seq<TradeHistory>, convert: TradeHistory -> Result<Trade, ImportError>,
                             toRecord: Trade -> R)
    : (r: Result<seq<R>, ImportError>)
    ensures r.Success? <==> forall i :: 0 <= i < |trades| ==> convert(trades[i]).Success?
    ensures r.Success? ==>
      && |r.value| == |trades|
      && forall i :: 0 <= i < |trades| ==> r.value[i] == toRecord(convert(trades[i]).value)
    ensures r.Failure? ==>
      exists i :: && 0 <= i < |trades| && convert(trades[i]) == Failure(r.error)
                  && forall k :: 0 <= k < i ==> convert(trades[k]).Success?
  {
    if trades == [] then Success([])
    else
      match convert(trades[0])
      case Failure(e) => Failure(e)
      case Success(t) =>
        var tail := trades[1..];
        assert forall i :: 1 <= i < |trades| ==> tail[i - 1] == trades[i];
        match CollectRecords(tail, convert, toRecord)
        case Failure(e) =>
          var j :| && 0 <= j < |tail| && convert(tail[j]) == Failure(e)
                   && forall k :: 0 <= k < j ==> convert(tail[k]).Success?;
          assert convert(trades[j + 1]) == Failure(e);
          Failure(e)
        case Success(records) => Success([toRecord(t)] + records)
  }

  /** `convert_trades`: the symbol names base then quote; a symbol without a
      quote, or a code `known` (`currencies::find`) does not list, is an error. */
  function ConvertTrades<R>(symbol: string, trades: seq<TradeHistory>, known: set<Currency>,
                            fromTimestamp: (int, int) -> Option<NaiveDateTime>, toRecord: Trade -> R)
    : Result<seq<R>, ImportError>
  {
    match FirstTwo(symbol)
    case None => Failure(InvalidSymbol(symbol))
    case Some((baseCode, quoteCode)) =>
      if baseCode !in known then Failure(UnknownCurrency("base", baseCode))
      else if quoteCode !in known then Failure(UnknownCurrency("quote", quoteCode))
      else CollectRecords(trades, h => BinanceToTrade(BinanceTrade(baseCode, quoteCode, h), fromTimestamp), toRecord)
  }

  /** `convert_trades` either fails, or returns one record per fetched trade
      in order; it succeeds exactly when the symbol has a quote part, both
      codes are known and every time is in range. The symbol and currency
      errors come before any trade is looked at. */
  lemma ConvertTradesOutcome<R>(symbol: string, trades: seq<TradeHistory>, known: set<Currency>,
                                fromTimestamp: (int, int) -> Option<NaiveDateTime>, toRecord: Trade -> R)
    ensures var r := ConvertTrades(symbol, trades, known, fromTimestamp, toRecord);
      && (MarketSeparator !in symbol ==> r == Failure(InvalidSymbol(symbol)))
      && (MarketSeparator in symbol ==>
            var (baseCode, quoteCode) := FirstTwo(symbol).value;
            && (baseCode !in known ==> r == Failure(UnknownCurrency("base", baseCode)))
            && (baseCode in known && quoteCode !in known ==> r == Failure(UnknownCurrency("quote", quoteCode)))
            && (r.Success? <==>
                  && baseCode in known && quoteCode in known
                  && forall i :: 0 <= i < |trades| ==>
                       fromTimestamp(SplitMillis(trades[i].time).0, SplitMillis(trades[i].time).1).Some?)
            && (r.Success? ==>
                  && |r.value| == |trades|
                  && forall i :: 0 <= i < |trades| ==>
                       r.value[i] == toRecord(BinanceToTrade(BinanceTrade(baseCode, quoteCode, trades[i]), fromTimestamp).value)))
  {
    FirstTwoPresent(symbol);
  }

  /** The symbol sent to the API: the command-line symbol with every
      separator removed (`replace("-", "")`). */
  function ApiSymbol(symbol: string): string {
    Without(symbol, MarketSeparator)
  }

  /** The API symbol has no separator, is all the pieces `convert_trades`
      splits the symbol into, glued together, and removing separators again
      changes nothing. */
  lemma ApiSymbolFacts(symbol: string)
    ensures MarketSeparator !in ApiSymbol(symbol)
    ensures ApiSymbol(symbol) == Concat(Split(symbol, MarketSeparator))
    ensures ApiSymbol(ApiSymbol(symbol)) == ApiSymbol(symbol)
  {
    WithoutIsConcatOfSplit(symbol, MarketSeparator);
    WithoutAbsent(ApiSymbol(symbol), MarketSeparator);
  }

  /** For a symbol `BASE-QUOTE` the API symbol is `BASEQUOTE`, and the
      conversion reads the same two codes back. */
  lemma ApiSymbolOfPair(base: Currency, quote: Currency)
    requires MarketSeparator !in base && MarketSeparator !in quote
    ensures ApiSymbol(base + [MarketSeparator] + quote) == base + quote
    ensures FirstTwo(base + [MarketSeparator] + quote) == Some((base, quote))
  {
    var symbol := base + [MarketSeparator] + quote;
    FirstTwoOfPair(base, quote);
    assert Join([base, quote], MarketSeparator) == symbol by {
      assert [base, quote][1..] == [quote];
    }
    SplitJoin([base, quote], MarketSeparator);
    WithoutIsConcatOfSplit(symbol, MarketSeparator);
    assert Concat([quote]) == quote by {
      assert [quote][1..] == [];
    }
    assert Concat([base, quote]) == base + quote by {
      assert [base, quote][1..] == [quote];
    }
  }
}
