/** The historical price index: currency pairs, quotes, the per-pair lists
    built from already-parsed CSV records, and lookup by calendar date. */
module Prices {
  import opened Wrappers
  import opened Calendar
  import opened Trades
  import Text

  /** An ordered (base, quote) pair; equality compares both currencies. */
  datatype CurrencyPair = CurrencyPair(base: Currency, quote: Currency)

  /** What the pair's `Hash` implementation feeds to the hasher: the base
      code, twice; the quote is never fed. */
  function HashInput(p: CurrencyPair): seq<string> {
    [p.base, p.base]
  }

  /** Equal pairs feed the hasher the same input, as `Hash` must agree with `Eq`,
      and pairs feed the same input exactly when they share a base. */
  lemma HashAgreesWithEq(p: CurrencyPair, q: CurrencyPair)
    ensures p == q ==> HashInput(p) == HashInput(q)
    ensures HashInput(p) == HashInput(q) <==> p.base == q.base
  {
    if HashInput(p) == HashInput(q) {
      assert HashInput(p)[0] == HashInput(q)[0];
    }
  }

  /** Pairs that share a base collide in the hash yet stay distinct keys:
      a map holds a separate entry for each. */
  lemma SharedBaseStaysDistinct<V>(m: map<CurrencyPair, V>, p: CurrencyPair, q: CurrencyPair, x: V, y: V)
    requires p.base == q.base && p.quote != q.quote
    ensures HashInput(p) == HashInput(q) && p != q
    ensures m[p := x][q := y][p] == x && m[p := x][q := y][q] == y
  {
  }

  /** `Display`: "BASE/QUOTE". */
  function Display(p: CurrencyPair): string {
    p.base + "/" + p.quote
  }

  /** The displayed form splits back into the two codes when neither contains '/'. */
  lemma DisplaySplitsBack(p: CurrencyPair)
    requires '/' !in p.base && '/' !in p.quote
    ensures Text.Split(Display(p), '/') == [p.base, p.quote]
  {
    var parts := [p.base, p.quote];
    assert Text.Join(parts[1..], '/') == p.quote;
    assert Text.Join(parts, '/') == Display(p);
    Text.SplitJoin(parts, '/');
  }

  /** One quote: the rate of `pair.base` in `pair.quote` at `dateTime`. */
  datatype Price = Price(pair: CurrencyPair, dateTime: DateTime, rate: real)

  /** The index: for each pair, its quotes in the order they were read. */
  datatype Prices = Prices(prices: map<CurrencyPair, seq<Price>>)

  /** The first quote in `list` dated `at`, like `iter().find(...)`. */
  function FirstOnDate(list: seq<Price>, at: Date): (r: Option<Price>)
    ensures r.None? <==> forall k :: 0 <= k < |list| ==> list[k].dateTime.date != at
    ensures r.Some? ==>
      exists k :: 0 <= k < |list| && list[k] == r.value && r.value.dateTime.date == at
        && forall m :: 0 <= m < k ==> list[m].dateTime.date != at
  {
    if list == [] then None
    else if list[0].dateTime.date == at then Some(list[0])
    else
      var r := FirstOnDate(list[1..], at);
      assert forall k :: 1 <= k < |list| ==> list[k] == list[1..][k - 1];
      r
  }

  /** `Prices::get`: the pair's first quote on calendar date `at`; the time of
      day is ignored. */
  function Get(index: Prices, pair: CurrencyPair, at: Date): (r: Option<Price>)
    ensures pair !in index.prices ==> r.None?
    ensures pair in index.prices ==> r == FirstOnDate(index.prices[pair], at)
    ensures r.Some? ==> r.value in index.prices[pair] && r.value.dateTime.date == at
  {
    if pair in index.prices then FirstOnDate(index.prices[pair], at) else None
  }

  /** A CSV row once deserialised: currency codes, an RFC 3339 text, a rate. */
  datatype PriceRecord = PriceRecord(baseCurrency: string, quoteCurrency: string, dateTime: string, rate: real)

  /** Why reading the CSV stops; every one of these is a panic (`expect`) in the source. */
  datatype PriceError = InvalidBaseCurrency(code: string) | InvalidQuoteCurrency(code: string) | InvalidDateTime(text: string)

  /** One record to a quote. `known` stands for `currencies::find`, `parseDate`
      for RFC 3339 parsing followed by conversion to UTC. */
  function ParseRecord(rec: PriceRecord, known: set<Currency>, parseDate: string -> Option<DateTime>): (r: Result<Price, PriceError>)
    ensures r.Success? <==> rec.baseCurrency in known && rec.quoteCurrency in known && parseDate(rec.dateTime).Some?
    ensures r.Success? ==> r.value == Price(CurrencyPair(rec.baseCurrency, rec.quoteCurrency), parseDate(rec.dateTime).value, rec.rate)
  {
    if rec.baseCurrency !in known then Failure(InvalidBaseCurrency(rec.baseCurrency))
    else if rec.quoteCurrency !in known then Failure(InvalidQuoteCurrency(rec.quoteCurrency))
    else match parseDate(rec.dateTime)
      case None => Failure(InvalidDateTime(rec.dateTime))
      case Some(dt) => Success(Price(CurrencyPair(rec.baseCurrency, rec.quoteCurrency), dt, rec.rate))
  }

  /** All records in order, stopping at the first one that does not parse. */
  function ParseAll(recs: seq<PriceRecord>, known: set<Currency>, parseDate: string -> Option<DateTime>): (r: Result<seq<Price>, PriceError>)
    ensures r.Success? <==> forall i :: 0 <= i < |recs| ==> ParseRecord(recs[i], known, parseDate).Success?
    ensures r.Success? ==>
              && |r.value| == |recs|
              && forall i :: 0 <= i < |recs| ==> r.value[i] == ParseRecord(recs[i], known, parseDate).value
    ensures r.Failure? ==>
              exists i :: && 0 <= i < |recs|
                          && ParseRecord(recs[i], known, parseDate) == Failure(r.error)
                          && forall k :: 0 <= k < i ==> ParseRecord(recs[k], known, parseDate).Success?
  {
    if recs == [] then Success([])
    else
      var init := recs[..|recs| - 1];
      assert forall i :: 0 <= i < |init| ==> init[i] == recs[i];
      match ParseAll(init, known, parseDate)
      case Failure(e) => Failure(e)
      case Success(ps) =>
        match ParseRecord(recs[|recs| - 1], known, parseDate)
        case Failure(e) => Failure(e)
        case Success(p) => Success(ps + [p])
  }

  /** The quotes of `ps` for `pair`, in their order in `ps`. */
  function PricesFor(ps: seq<Price>, pair: CurrencyPair): (r: seq<Price>)
    ensures forall x :: x in r ==> x.pair == pair
  {
    if ps == [] then []
    else PricesFor(ps[..|ps| - 1], pair) + (if ps[|ps| - 1].pair == pair then [ps[|ps| - 1]] else [])
  }

  /** Grouping loses and duplicates nothing: a quote occurs in its own pair's
      list as often as in the input, and in no other list. */
  lemma {:induction false} PricesForCount(ps: seq<Price>, pair: CurrencyPair, x: Price)
    ensures multiset(PricesFor(ps, pair))[x] == if x.pair == pair then multiset(ps)[x] else 0
  {
    if ps != [] {
      var init, last := ps[..|ps| - 1], ps[|ps| - 1];
      PricesForCount(init, pair, x);
      assert ps == init + [last];
      assert multiset(ps) == multiset(init) + multiset{last};
    }
  }

  /** `prices` holds, for each pair occurring in `ps`, that pair's quotes in order, and nothing else. */
  ghost predicate Grouped(prices: map<CurrencyPair, seq<Price>>, ps: seq<Price>) {
    && (forall pair :: pair in prices <==> exists k :: 0 <= k < |ps| && ps[k].pair == pair)
    && forall pair :: pair in prices ==> prices[pair] == PricesFor(ps, pair)
  }

  /** `Prices::read_csv` from already-deserialised records: each quote is
      appended to the end of its pair's list. */
  method ReadCsv(recs: seq<PriceRecord>, known: set<Currency>, parseDate: string -> Option<DateTime>)
    returns (r: Result<Prices, PriceError>)
    ensures r.Failure? <==> ParseAll(recs, known, parseDate).Failure?
    ensures r.Failure? ==> r.error == ParseAll(recs, known, parseDate).error
    ensures r.Success? ==> Grouped(r.value.prices, ParseAll(recs, known, parseDate).value)
  {
    var prices: map<CurrencyPair, seq<Price>> := map[];
    var i := 0;
    while i < |recs|
      invariant 0 <= i <= |recs|
      invariant ParseAll(recs[..i], known, parseDate).Success?
      invariant Grouped(prices, ParseAll(recs[..i], known, parseDate).value)
    {
      ghost var before := ParseAll(recs[..i], known, parseDate).value;
      var rec := recs[i];
      if rec.baseCurrency !in known {
        ParseAllStops(recs, i, known, parseDate);
        return Failure(InvalidBaseCurrency(rec.baseCurrency));
      }
      if rec.quoteCurrency !in known {
        ParseAllStops(recs, i, known, parseDate);
        return Failure(InvalidQuoteCurrency(rec.quoteCurrency));
      }
      var parsed := parseDate(rec.dateTime);
      if parsed.None? {
        ParseAllStops(recs, i, known, parseDate);
        return Failure(InvalidDateTime(rec.dateTime));
      }
      var pair := CurrencyPair(rec.baseCurrency, rec.quoteCurrency);
      var price := Price(pair, parsed.value, rec.rate);
      var list := if pair in prices then prices[pair] else [];
      assert ParseRecord(rec, known, parseDate) == Success(price);
      ParseAllExtends(recs, i, known, parseDate);
      GroupedAppend(prices, before, price);
      prices := prices[pair := list + [price]];
      i := i + 1;
    }
    assert recs[..i] == recs;
    r := Success(Prices(prices));
  }

  /** Appending one quote to its pair's list keeps the grouping. */
  lemma GroupedAppend(prices: map<CurrencyPair, seq<Price>>, ps: seq<Price>, x: Price)
    requires Grouped(prices, ps)
    ensures Grouped(prices[x.pair := (if x.pair in prices then prices[x.pair] else []) + [x]], ps + [x])
  {
    var after := ps + [x];
    var m := prices[x.pair := (if x.pair in prices then prices[x.pair] else []) + [x]];
    assert after[..|after| - 1] == ps;
    if x.pair !in prices {
      PricesForAbsent(ps, x.pair);
    }
    forall pair ensures pair in m <==> exists k :: 0 <= k < |after| && after[k].pair == pair {
      if pair != x.pair && exists k :: 0 <= k < |after| && after[k].pair == pair {
        var k :| 0 <= k < |after| && after[k].pair == pair;
        assert k < |ps| && ps[k].pair == pair;
      }
      if pair in prices {
        var k :| 0 <= k < |ps| && ps[k].pair == pair;
        assert after[k] == ps[k];
      }
      if pair == x.pair {
        assert after[|ps|].pair == pair;
      }
    }
  }

  /** A record that parses extends the quotes of the records before it. */
  lemma ParseAllExtends(recs: seq<PriceRecord>, i: nat, known: set<Currency>, parseDate: string -> Option<DateTime>)
    requires i < |recs|
    requires ParseAll(recs[..i], known, parseDate).Success?
    requires ParseRecord(recs[i], known, parseDate).Success?
    ensures ParseAll(recs[..i + 1], known, parseDate)
         == Success(ParseAll(recs[..i], known, parseDate).value + [ParseRecord(recs[i], known, parseDate).value])
  {
    assert recs[..i + 1][..i] == recs[..i] && recs[..i + 1][i] == recs[i];
  }

  /** When record `i` is the first that does not parse, the whole parse fails with its error. */
  lemma ParseAllStops(recs: seq<PriceRecord>, i: nat, known: set<Currency>, parseDate: string -> Option<DateTime>)
    requires i < |recs|
    requires ParseAll(recs[..i], known, parseDate).Success?
    requires ParseRecord(recs[i], known, parseDate).Failure?
    ensures ParseAll(recs, known, parseDate) == Failure(ParseRecord(recs[i], known, parseDate).error)
  {
    var r := ParseAll(recs, known, parseDate);
    assert forall k :: 0 <= k < i ==> ParseRecord(recs[..i][k], known, parseDate).Success?;
    assert forall k :: 0 <= k < i ==> recs[..i][k] == recs[k];
    assert !ParseRecord(recs[i], known, parseDate).Success?;
    var j :| && 0 <= j < |recs|
             && ParseRecord(recs[j], known, parseDate) == Failure(r.error)
             && forall k :: 0 <= k < j ==> ParseRecord(recs[k], known, parseDate).Success?;
    assert j == i;
  }

  lemma {:induction false} PricesForAbsent(ps: seq<Price>, pair: CurrencyPair)
    requires forall k :: 0 <= k < |ps| ==> ps[k].pair != pair
    ensures PricesFor(ps, pair) == []
  {
    if ps != [] {
      PricesForAbsent(ps[..|ps| - 1], pair);
    }
  }
}
