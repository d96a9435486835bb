/** The trades of the repository's own engine tests, built as its `trade`
    helper builds them: at 23:59:59, with no fee and no exchange, and
    against GBP so that no price index is consulted. The tests trade BTC;
    the examples hold for any asset other than GBP. */
module ExampleTrades {
  import opened Wrappers
  import opened Calendar
  import opened Trades
  import opened Prices
  import opened Sorting
  import opened TaxReports
  import opened Cgt

  /** One second before midnight. */
  function LateOn(y: int, m: int, d: int): NaiveDateTime
    requires 1 <= m <= 12 && 1 <= d <= DaysInMonth(y, m)
  {
    DateTime(Date(y, m, d), 86_399_000_000_000)
  }

  /** A trade with no fee and no exchange; the legs in the helper's order. */
  function TestTrade(at: NaiveDateTime, kind: TradeKind, sell: Money, buy: Money, rate: real): Trade {
    Trade(at, kind, buy, sell, Money(0.0, GBP), rate, None)
  }

  /** Replays of two, three and four trades known step by step. */
  lemma RunTwo(trades: seq<Trade>, s0: Run, s1: Run, s2: Run, index: Prices)
    requires |trades| == 2
    requires Step(trades, trades[0], s0, index) == Success(s1)
    requires Step(trades, trades[1], s1, index) == Success(s2)
    ensures RunFrom(trades, 0, s0, index) == Success(s2)
  {
    RunFromStep(trades, 0, s0, s1, index);
    RunFromStep(trades, 1, s1, s2, index);
  }

  lemma RunThree(trades: seq<Trade>, s0: Run, s1: Run, s2: Run, s3: Run, index: Prices)
    requires |trades| == 3
    requires Step(trades, trades[0], s0, index) == Success(s1)
    requires Step(trades, trades[1], s1, index) == Success(s2)
    requires Step(trades, trades[2], s2, index) == Success(s3)
    ensures RunFrom(trades, 0, s0, index) == Success(s3)
  {
    RunFromStep(trades, 0, s0, s1, index);
    RunFromStep(trades, 1, s1, s2, index);
    RunFromStep(trades, 2, s2, s3, index);
  }

  lemma RunFour(trades: seq<Trade>, s0: Run, s1: Run, s2: Run, s3: Run, s4: Run, index: Prices)
    requires |trades| == 4
    requires Step(trades, trades[0], s0, index) == Success(s1)
    requires Step(trades, trades[1], s1, index) == Success(s2)
    requires Step(trades, trades[2], s2, index) == Success(s3)
    requires Step(trades, trades[3], s3, index) == Success(s4)
    ensures RunFrom(trades, 0, s0, index) == Success(s4)
  {
    RunFromStep(trades, 0, s0, s1, index);
    RunFromStep(trades, 1, s1, s2, index);
    RunFromStep(trades, 2, s2, s3, index);
    RunFromStep(trades, 3, s3, s4, index);
  }

  /** The report of trades already in date order whose replay is known. */
  lemma ReportOf(trades: seq<Trade>, index: Prices, st: Run)
    requires SortedBy(trades, TradeTime)
    requires RunFrom(trades, 0, Start, index) == Success(st)
    ensures CalculateSpec(trades, index) == Success(TaxReport(trades, Buckets(st.disposals), st.pools))
  {
    SortByKeepsSorted(trades, TradeTime);
  }

  /** Records after records of other years make up their year's bucket. */
  lemma {:induction false} YearOfSuffix(pre: seq<Disposal>, rest: seq<Disposal>, y: Year)
    requires forall k :: 0 <= k < |pre| ==> pre[k].taxYear != y
    requires forall k :: 0 <= k < |rest| ==> rest[k].taxYear == y
    ensures InYear(pre + rest, y) == rest
    decreases |rest|
  {
    if rest == [] {
      InYearAbsent(pre, y);
      assert pre + rest == pre;
    } else {
      var init := rest[..|rest| - 1];
      YearOfSuffix(pre, init, y);
      assert (pre + rest)[..|pre + rest| - 1] == pre + init;
      assert init + [rest[|rest| - 1]] == rest;
    }
  }
}
