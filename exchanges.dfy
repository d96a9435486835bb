/** What the exchange importers share: reading a market name such as
    "ETH-GBP" with two `next()` calls on `split('-')`, and the ways an
    import stops. */
module Exchanges {
  import opened Wrappers
  import opened Text

  /** Why an importer produces no trade. The first three are errors the
      source returns; the others are panics (`expect`, `unwrap`, `panic!`,
      and the range check inside `NaiveDateTime::from_timestamp`). */
  datatype ImportError =
    | DateTimeParse(text: string)
    | InvalidSymbol(symbol: string)
    | UnknownCurrency(role: string, code: string)
    | MissingCurrency(role: string)
    | InvalidOrderType(value: string)
    | UnparsableDateTime(text: string)
    | TimestampOutOfRange(seconds: int, nanos: int)
  {
    predicate IsPanic() {
      MissingCurrency? || InvalidOrderType? || UnparsableDateTime? || TimestampOutOfRange?
    }
  }

  const MarketSeparator: char := '-'

  /** The first two pieces of a market name. `split` always yields a first
      piece, so only the second can be missing: exactly when the name has no
      separator. Any further pieces are never read. */
  function FirstTwo(market: string): (r: Option<(string, string)>)
  {
    var parts := Split(market, MarketSeparator);
    if |parts| >= 2 then Some((parts[0], parts[1])) else None
  }

  /** The second piece is there exactly when the name holds a separator, and
      neither piece contains one. */
  lemma FirstTwoPresent(market: string)
    ensures FirstTwo(market).Some? <==> MarketSeparator in market
    ensures FirstTwo(market).Some? ==> MarketSeparator !in FirstTwo(market).value.0 + FirstTwo(market).value.1
  {
    SplitCount(market, MarketSeparator);
  }

  /** Reading back a name joined from separator-free pieces gives its first two pieces. */
  lemma FirstTwoOfJoin(parts: seq<string>)
    requires |parts| >= 2
    requires forall i :: 0 <= i < |parts| ==> MarketSeparator !in parts[i]
    ensures FirstTwo(Join(parts, MarketSeparator)) == Some((parts[0], parts[1]))
  {
    SplitJoin(parts, MarketSeparator);
  }

  /** A market name `a-b` reads back as `(a, b)`. */
  lemma FirstTwoOfPair(a: string, b: string)
    requires MarketSeparator !in a && MarketSeparator !in b
    ensures FirstTwo(a + [MarketSeparator] + b) == Some((a, b))
  {
    assert Join([a, b], MarketSeparator) == a + [MarketSeparator] + b by {
      assert [a, b][1..] == [b];
    }
    FirstTwoOfJoin([a, b]);
  }
}
