/** What the capital-gains engine guarantees: how the 30-day matching shares
    quantities out, what one run of `calculate` records, and when its answer
    depends only on the trades given. */
module CgtFacts {
  import opened Wrappers
  import opened Calendar
  import opened Trades
  import opened Prices
  import opened Pooling
  import opened Sorting
  import opened TaxReports
  import opened Cgt

  /** The quantities still free for matching in the acquisitions `cs`. */
  function SumRemaining(cs: seq<Trade>, special: map<TradeKey, real>): real {
    if cs == [] then 0.0 else Remaining(special, cs[0]) + SumRemaining(cs[1..], special)
  }

  predicate Distinct(cs: seq<Trade>) {
    forall i, j :: 0 <= i < j < |cs| ==> cs[i] != cs[j]
  }

  /** Recording a remainder for an acquisition outside `cs` leaves theirs alone. */
  lemma {:induction false} SumRemainingFrame(cs: seq<Trade>, special: map<TradeKey, real>, t: Trade, v: real)
    requires t !in cs
    ensures SumRemaining(cs, special[Key(t) := v]) == SumRemaining(cs, special)
  {
    if cs != [] {
      SumRemainingFrame(cs[1..], special, t, v);
    }
  }

  /** Matching moves quantity and never creates it: what the acquisitions
      give up in total is exactly what the disposal no longer takes from the pool. */
  lemma {:induction false} MatchAllConserves(cs: seq<Trade>, m: Matching, index: Prices)
    requires Distinct(cs)
    ensures var r := MatchAll(cs, m, index);
      r.Success? ==> SumRemaining(cs, m.special) - SumRemaining(cs, r.value.special) == m.unmatched - r.value.unmatched
  {
    if cs != [] {
      var c, rest := cs[0], cs[1..];
      var one := MatchOne(c, m, index);
      if one.Success? {
        var m1 := one.value;
        assert c !in rest;
        assert Distinct(rest) by {
          forall i, j | 0 <= i < j < |rest| ensures rest[i] != rest[j] {
            assert rest[i] == cs[i + 1] && rest[j] == cs[j + 1];
          }
        }
        SumRemainingFrame(rest, m.special, c, m1.special[Key(c)]);
        MatchAllConserves(rest, m1, index);
        MatchAllFrame(rest, m1, index, c);
        var r := MatchAll(cs, m, index);
        assert r == MatchAll(rest, m1, index);
        if r.Success? {
          assert SumRemaining(cs, r.value.special) == Remaining(r.value.special, c) + SumRemaining(rest, r.value.special);
          assert SumRemaining(cs, m.special) == Remaining(m.special, c) + SumRemaining(rest, m.special);
        }
      }
    }
  }

  /** Matching touches only the remainders of the candidates it is given. */
  lemma {:induction false} MatchAllFrame(cs: seq<Trade>, m: Matching, index: Prices, t: Trade)
    requires t !in cs
    ensures var r := MatchAll(cs, m, index);
      r.Success? ==> Remaining(r.value.special, t) == Remaining(m.special, t)
  {
    if cs != [] {
      var one := MatchOne(cs[0], m, index);
      if one.Success? {
        MatchAllFrame(cs[1..], one.value, index, t);
      }
    }
  }

  /** With a non-negative quantity to match, no acquisition's remainder grows
      and the quantity left over stays between zero and where it started. */
  lemma {:induction false} MatchAllShrinks(cs: seq<Trade>, m: Matching, index: Prices, t: Trade)
    requires 0.0 <= m.unmatched
    ensures var r := MatchAll(cs, m, index);
      r.Success? ==>
        && 0.0 <= r.value.unmatched <= m.unmatched
        && Remaining(r.value.special, t) <= Remaining(m.special, t)
  {
    if cs != [] {
      var one := MatchOne(cs[0], m, index);
      if one.Success? {
        MatchAllShrinks(cs[1..], one.value, index, t);
      }
    }
  }

  /** Matching is greedy: when part of the disposal is left for the pool,
      every candidate acquisition has been used up. */
  lemma {:induction false} MatchAllExhausts(cs: seq<Trade>, m: Matching, index: Prices)
    requires 0.0 <= m.unmatched
    ensures var r := MatchAll(cs, m, index);
      r.Success? && r.value.unmatched > 0.0 ==> forall i :: 0 <= i < |cs| ==> Remaining(r.value.special, cs[i]) <= 0.0
  {
    if cs != [] {
      var c := cs[0];
      var one := MatchOne(c, m, index);
      var r := MatchAll(cs, m, index);
      if one.Success? && r.Success? && r.value.unmatched > 0.0 {
        var m1 := one.value;
        MatchAllShrinks(cs[1..], m1, index, c);
        MatchAllExhausts(cs[1..], m1, index);
        assert Remaining(m1.special, c) <= 0.0;
        forall i | 0 <= i < |cs| ensures Remaining(r.value.special, cs[i]) <= 0.0 {
          if i > 0 {
            assert cs[i] == cs[1..][i - 1];
          }
        }
      }
    }
  }

  /** With nothing left to match, matching takes nothing from any acquisition. */
  lemma {:induction false} MatchAllNothingToMatch(cs: seq<Trade>, m: Matching, index: Prices, t: Trade)
    requires m.unmatched <= 0.0
    ensures var r := MatchAll(cs, m, index);
      r.Success? ==> Remaining(r.value.special, t) >= Remaining(m.special, t)
  {
    if cs != [] {
      var one := MatchOne(cs[0], m, index);
      if one.Success? {
        MatchAllNothingToMatch(cs[1..], one.value, index, t);
      }
    }
  }

  /** Matching uses the candidates in the order given: a candidate gives up
      part of its remainder only once every candidate before it is used up. */
  lemma {:induction false} MatchAllInOrder(cs: seq<Trade>, m: Matching, index: Prices, i: nat, j: nat)
    requires Distinct(cs) && i < j < |cs|
    ensures var r := MatchAll(cs, m, index);
      r.Success? && Remaining(r.value.special, cs[j]) < Remaining(m.special, cs[j]) ==>
        Remaining(r.value.special, cs[i]) <= 0.0
  {
    if i == 0 {
      MatchAllFirstUsedUp(cs, m, index, j);
    } else {
      var one := MatchOne(cs[0], m, index);
      if one.Success? {
        var rest := cs[1..];
        DistinctTail(cs);
        assert cs[i] == rest[i - 1] && cs[j] == rest[j - 1];
        assert Remaining(one.value.special, cs[j]) == Remaining(m.special, cs[j]);
        assert MatchAll(cs, m, index) == MatchAll(rest, one.value, index);
        MatchAllInOrder(rest, one.value, index, i - 1, j - 1);
      }
    }
  }

  /** The first candidate is used up before any later one gives anything up. */
  lemma MatchAllFirstUsedUp(cs: seq<Trade>, m: Matching, index: Prices, j: nat)
    requires Distinct(cs) && 0 < j < |cs|
    ensures var r := MatchAll(cs, m, index);
      r.Success? && Remaining(r.value.special, cs[j]) < Remaining(m.special, cs[j]) ==>
        Remaining(r.value.special, cs[0]) <= 0.0
  {
    var c, rest := cs[0], cs[1..];
    var one := MatchOne(c, m, index);
    var r := MatchAll(cs, m, index);
    if one.Success? && r.Success? && Remaining(r.value.special, cs[j]) < Remaining(m.special, cs[j]) {
      var m1 := one.value;
      DistinctTail(cs);
      assert cs[j] == rest[j - 1] && cs[j] != c;
      assert Remaining(m1.special, cs[j]) == Remaining(m.special, cs[j]);
      if m1.unmatched <= 0.0 {
        MatchAllNothingToMatch(rest, m1, index, cs[j]);
      }
      assert Remaining(m1.special, c) <= 0.0;
      MatchAllFrame(rest, m1, index, c);
    }
  }

  /** Dropping the first of distinct trades leaves distinct trades, none of
      them the one dropped. */
  lemma DistinctTail(cs: seq<Trade>)
    requires Distinct(cs) && cs != []
    ensures Distinct(cs[1..]) && cs[0] !in cs[1..]
  {
    var rest := cs[1..];
    forall i, j | 0 <= i < j < |rest| ensures rest[i] != rest[j] {
      assert rest[i] == cs[i + 1] && rest[j] == cs[j + 1];
    }
    forall k | 0 <= k < |rest| ensures rest[k] != cs[0] {
      assert rest[k] == cs[k + 1];
    }
  }

  /** The candidates keep the order of the trades they are drawn from: in
      the date-ordered trades, a disposal meets its later acquisitions
      earliest first. */
  lemma {:induction false} CandidatesSorted(ts: seq<Trade>, disposal: Trade)
    requires SortedBy(ts, TradeTime)
    ensures SortedBy(Candidates(ts, disposal), TradeTime)
  {
    if ts != [] {
      var rest := ts[1..];
      TailFacts(ts, TradeTime);
      CandidatesSorted(rest, disposal);
      CandidatesNoEarlier(rest, disposal, TradeTime(ts[0]));
      var head := if IsCandidate(ts[0], disposal) then [ts[0]] else [];
      assert Candidates(ts, disposal) == head + Candidates(rest, disposal);
      ConsSorted(head, ts[0], Candidates(rest, disposal));
    }
  }

  /** Candidates drawn from trades no earlier than `at` are no earlier than `at`. */
  lemma {:induction false} CandidatesNoEarlier(ts: seq<Trade>, disposal: Trade, at: DateTime)
    requires forall k :: 0 <= k < |ts| ==> Le(at, TradeTime(ts[k]))
    ensures forall k :: 0 <= k < |Candidates(ts, disposal)| ==> Le(at, TradeTime(Candidates(ts, disposal)[k]))
  {
    if ts != [] {
      var rest := ts[1..];
      forall k | 0 <= k < |rest| ensures Le(at, TradeTime(rest[k])) {
        assert rest[k] == ts[k + 1];
      }
      CandidatesNoEarlier(rest, disposal, at);
      var tail := Candidates(rest, disposal);
      var cs := Candidates(ts, disposal);
      if IsCandidate(ts[0], disposal) {
        assert cs == [ts[0]] + tail;
        forall k | 0 <= k < |cs| ensures Le(at, TradeTime(cs[k])) {
          if k > 0 {
            assert cs[k] == tail[k - 1];
          }
        }
      } else {
        assert cs == tail;
      }
    }
  }

  /** At most `x` in front of a sorted sequence no earlier than `x` keeps it sorted. */
  lemma ConsSorted(head: seq<Trade>, x: Trade, tail: seq<Trade>)
    requires head == [] || head == [x]
    requires SortedBy(tail, TradeTime)
    requires forall k :: 0 <= k < |tail| ==> Le(TradeTime(x), TradeTime(tail[k]))
    ensures SortedBy(head + tail, TradeTime)
  {
    var all := head + tail;
    forall p, q | 0 <= p < q < |all| ensures Le(TradeTime(all[p]), TradeTime(all[q])) {
      assert all[q] == tail[q - |head|];
      if p >= |head| {
        assert all[p] == tail[p - |head|];
      }
    }
  }

  /** The candidates of distinct trades are distinct. */
  lemma {:induction false} CandidatesDistinct(ts: seq<Trade>, disposal: Trade)
    requires Distinct(ts)
    ensures Distinct(Candidates(ts, disposal))
  {
    if ts != [] {
      var rest := ts[1..];
      assert Distinct(rest) by {
        forall i, j | 0 <= i < j < |rest| ensures rest[i] != rest[j] {
          assert rest[i] == ts[i + 1] && rest[j] == ts[j + 1];
        }
      }
      CandidatesDistinct(rest, disposal);
      var tail := Candidates(rest, disposal);
      if IsCandidate(ts[0], disposal) {
        assert ts[0] !in rest by {
          forall k | 0 <= k < |rest| ensures rest[k] != ts[0] {
            assert rest[k] == ts[k + 1];
          }
        }
        CandidatesCount(rest, disposal);
        assert multiset(tail)[ts[0]] == 0;
        var x := ts[0];
        assert x !in tail by {
          assert (x in tail) == (x in multiset(tail));
        }
        ConsDistinct(ts[0], tail);
      }
    }
  }

  lemma ConsDistinct(x: Trade, tail: seq<Trade>)
    requires Distinct(tail) && x !in tail
    ensures Distinct([x] + tail)
  {
    var all := [x] + tail;
    forall i, j | 0 <= i < j < |all| ensures all[i] != all[j] {
      assert all[j] == tail[j - 1];
      if i > 0 {
        assert all[i] == tail[i - 1];
      }
    }
  }

  /** A disposal of anything but GBP: what the later
      acquisitions give up plus what is sold from the pool is the quantity
      sold, and the allowable costs are the pool's share of its costs plus
      the matched acquisitions' costs. */
  lemma DisposeSplitsSale(sorted: seq<Trade>, pools: map<string, PoolState>, special: map<TradeKey, real>,
                          t: Trade, index: Prices)
    requires t.sell.currency != GBP && Distinct(sorted)
    ensures var r := Dispose(sorted, pools, special, t, index);
      var cs := Candidates(sorted, t);
      var mr := MatchAll(cs, Matching(special, t.sell.amount, 0.0), index);
      var pool := PoolOf(pools, t.sell.currency);
      r.Success? ==>
        && mr.Success?
        && r.value.special == mr.value.special
        && (SumRemaining(cs, special) - SumRemaining(cs, r.value.special)) + mr.value.unmatched == t.sell.amount
        && SaleDefined(pool, mr.value.unmatched)
        && r.value.allowable == Sold(pool, mr.value.unmatched).consumed + mr.value.costs
        && r.value.pools == pools[t.sell.currency := Sold(pool, mr.value.unmatched).pool]
  {
    CandidatesDistinct(sorted, t);
    MatchAllConserves(Candidates(sorted, t), Matching(special, t.sell.amount, 0.0), index);
  }

  ghost predicate RemaindersNonNegative(special: map<TradeKey, real>) {
    forall k :: k in special ==> special[k] >= 0.0
  }

  /** Remainders recorded for acquisitions of non-negative quantities never go negative. */
  lemma {:induction false} MatchAllKeepsRemainders(cs: seq<Trade>, m: Matching, index: Prices)
    requires RemaindersNonNegative(m.special)
    requires forall i :: 0 <= i < |cs| ==> cs[i].buy.amount >= 0.0
    ensures var r := MatchAll(cs, m, index);
      r.Success? ==> RemaindersNonNegative(r.value.special)
  {
    if cs != [] {
      var one := MatchOne(cs[0], m, index);
      if one.Success? {
        assert RemaindersNonNegative(one.value.special) by {
          assert Remaining(m.special, cs[0]) >= 0.0;
        }
        assert forall i :: 0 <= i < |cs[1..]| ==> cs[1..][i] == cs[i + 1];
        MatchAllKeepsRemainders(cs[1..], one.value, index);
      }
    }
  }

  /** `d` is the record `calculate` pushes for trade `t`: its tax year, its
      own price, each leg valued in GBP, a buy pool exactly when it acquires
      something other than GBP, a sell pool exactly when it disposes of
      something other than GBP, and no allowable cost when it sells GBP. */
  ghost predicate Describes(d: Disposal, t: Trade, index: Prices) {
    && d.trade == t
    && d.taxYear == UkTaxYear(t.dateTime)
    && GetPrice(t, index) == Some(d.price)
    && d.buyValue == Value(t.buy, d.price)
    && d.sellValue == Value(t.sell, d.price)
    && d.feeValue == Value(t.fee, d.price)
    && (d.buyPool.Some? <==> t.buy.currency != GBP)
    && (d.sellPool.Some? <==> t.sell.currency != GBP)
    && (t.sell.currency == GBP ==> d.allowableCosts == 0.0)
  }

  /** One step appends one record, describing its trade. */
  lemma StepRecords(sorted: seq<Trade>, t: Trade, st: Run, index: Prices)
    ensures var r := Step(sorted, t, st, index);
      r.Success? ==>
        && |r.value.disposals| == |st.disposals| + 1
        && r.value.disposals[..|st.disposals|] == st.disposals
        && Describes(r.value.disposals[|st.disposals|], t, index)
  {
  }

  /** `ds` holds one record per trade of `ts`, in the same order. */
  ghost predicate DescribesAll(ds: seq<Disposal>, ts: seq<Trade>, index: Prices) {
    |ds| == |ts| && forall k :: 0 <= k < |ds| ==> Describes(ds[k], ts[k], index)
  }

  lemma DescribesAllCons(d: Disposal, ds: seq<Disposal>, t: Trade, ts: seq<Trade>, index: Prices)
    requires Describes(d, t, index) && DescribesAll(ds, ts, index)
    ensures DescribesAll([d] + ds, [t] + ts, index)
  {
    forall k | 0 <= k < |ds| + 1 ensures Describes(([d] + ds)[k], ([t] + ts)[k], index) {
      if k > 0 {
        assert ([d] + ds)[k] == ds[k - 1] && ([t] + ts)[k] == ts[k - 1];
      }
    }
  }

  lemma AppendRecord(before: seq<Disposal>, after: seq<Disposal>, ds: seq<Disposal>, t: Trade, ts: seq<Trade>, index: Prices)
    requires |after| == |before| + 1 && after[..|before|] == before && Describes(after[|before|], t, index)
    requires |after| <= |ds| && ds == after + ds[|after|..] && DescribesAll(ds[|after|..], ts, index)
    ensures |before| <= |ds| && ds == before + ds[|before|..] && DescribesAll(ds[|before|..], [t] + ts, index)
  {
    SplitAfter(before, after, ds);
    DescribesAllCons(after[|before|], ds[|after|..], t, ts, index);
  }

  /** A sequence that starts with `before` and one more element. */
  lemma SplitAfter<T>(before: seq<T>, after: seq<T>, ds: seq<T>)
    requires |after| == |before| + 1 && after[..|before|] == before
    requires |after| <= |ds| && ds == after + ds[|after|..]
    ensures ds == before + ds[|before|..] && ds[|before|..] == [after[|before|]] + ds[|after|..]
  {
    assert after == before + [after[|before|]];
  }

  /** The replay result `r` extends the records of `st` by one record per trade of `ts`. */
  ghost predicate Extends(st: Run, r: Result<Run, CalcError>, ts: seq<Trade>, index: Prices) {
    r.Success? ==>
      && |st.disposals| <= |r.value.disposals|
      && r.value.disposals == st.disposals + r.value.disposals[|st.disposals|..]
      && DescribesAll(r.value.disposals[|st.disposals|..], ts, index)
  }

  /** Replaying trades `i..` appends one record per trade, in order. */
  lemma {:induction false} RunRecords(sorted: seq<Trade>, i: nat, st: Run, index: Prices)
    requires i <= |sorted|
    ensures Extends(st, RunFrom(sorted, i, st, index), sorted[i..], index)
    decreases |sorted| - i
  {
    if i < |sorted| {
      var step := Step(sorted, sorted[i], st, index);
      if step.Success? {
        var st' := step.value;
        RunRecords(sorted, i + 1, st', index);
        StepRecords(sorted, sorted[i], st, index);
        RunFromStep(sorted, i, st, st', index);
        SliceCons(sorted, i);
        ExtendsCons(st, st', RunFrom(sorted, i + 1, st', index), sorted[i], sorted[i + 1..], index);
      }
    } else {
      assert sorted[i..] == [];
      var r := RunFrom(sorted, i, st, index);
      assert r.Success? ==> r.value.disposals[|st.disposals|..] == [];
    }
  }

  lemma SliceCons(s: seq<Trade>, i: nat)
    requires i < |s|
    ensures s[i..] == [s[i]] + s[i + 1..]
  {
  }

  /** The inductive step of `RunRecords`: one record describing `t` in front
      of the records of the rest. */
  lemma ExtendsCons(st: Run, st': Run, r: Result<Run, CalcError>, t: Trade, ts: seq<Trade>, index: Prices)
    requires |st'.disposals| == |st.disposals| + 1 && st'.disposals[..|st.disposals|] == st.disposals
    requires Describes(st'.disposals[|st.disposals|], t, index)
    requires Extends(st', r, ts, index)
    ensures Extends(st, r, [t] + ts, index)
  {
    if r.Success? {
      AppendRecord(st.disposals, st'.disposals, r.value.disposals, t, ts, index);
    }
  }

  /** `calculate` succeeds with one record per trade, in date-time order, and
      its tax years are exactly those records grouped by year. */
  lemma CalculateRecordsEveryTrade(trades: seq<Trade>, index: Prices)
    ensures var r := CalculateSpec(trades, index);
      var run := RunFrom(SortBy(trades, TradeTime), 0, Start, index);
      && (r.Success? <==> run.Success?)
      && (r.Success? ==>
            && r.value.trades == SortBy(trades, TradeTime)
            && r.value.years == Buckets(run.value.disposals)
            && DescribesAll(run.value.disposals, r.value.trades, index))
  {
    var sorted := SortBy(trades, TradeTime);
    RunRecords(sorted, 0, Start, index);
    assert sorted[0..] == sorted;
  }

  /** `calculate` only succeeds when every trade has a price: a trade
      without one makes it fail. */
  lemma EveryTradePriced(trades: seq<Trade>, index: Prices, t: Trade)
    requires t in trades
    ensures CalculateSpec(trades, index).Success? ==> GetPrice(t, index).Some?
  {
    var sorted := SortBy(trades, TradeTime);
    CalculateRecordsEveryTrade(trades, index);
    if CalculateSpec(trades, index).Success? {
      assert t in multiset(sorted);
      var k :| 0 <= k < |sorted| && sorted[k] == t;
      assert Describes(RunFrom(sorted, 0, Start, index).value.disposals[k], t, index);
    }
  }

  /** Each tax year of a report lists its records in trade date-time order, so
      asking for that year returns them as they are. */
  lemma YearGainsInTradeOrder(trades: seq<Trade>, index: Prices, y: Year, order: seq<Year>)
    requires CalculateSpec(trades, index).Success?
    requires IterationOrder(order, CalculateSpec(trades, index).value.years)
    requires y in CalculateSpec(trades, index).value.years
    ensures GainsOf(CalculateSpec(trades, index).value, Some(y), order).gains
         == CalculateSpec(trades, index).value.years[y].disposals
  {
    var rep := CalculateSpec(trades, index).value;
    var sorted := SortBy(trades, TradeTime);
    CalculateRecordsEveryTrade(trades, index);
    SortBySorted(trades, TradeTime);
    var ds := RunFrom(sorted, 0, Start, index).value.disposals;
    assert SortedBy(ds, DisposalTime) by {
      forall i, j | 0 <= i < j < |ds| ensures Le(DisposalTime(ds[i]), DisposalTime(ds[j])) {
        assert Describes(ds[i], sorted[i], index) && Describes(ds[j], sorted[j], index);
      }
    }
    InYearSorted(ds, y);
    SortByKeepsSorted(InYear(ds, y), DisposalTime);
  }

  /** The report depends only on which trades are given, not on their order,
      when no two different trades share a date-time. */
  lemma CalculateOrderIndependent(a: seq<Trade>, b: seq<Trade>, index: Prices)
    requires multiset(a) == multiset(b)
    requires KeysDistinct(a, TradeTime)
    ensures CalculateSpec(a, index) == CalculateSpec(b, index)
  {
    SortByOrderIndependent(a, b, TradeTime);
  }

  /** No pool holds a negative quantity and no remainder is negative. */
  ghost predicate Sound(st: Run) {
    && (forall c :: c in st.pools ==> st.pools[c].total >= 0.0)
    && RemaindersNonNegative(st.special)
  }

  lemma CandidatesFrom(sorted: seq<Trade>, t: Trade)
    requires forall k :: 0 <= k < |sorted| ==> sorted[k].buy.amount >= 0.0
    ensures forall i :: 0 <= i < |Candidates(sorted, t)| ==> Candidates(sorted, t)[i].buy.amount >= 0.0
  {
    var cands := Candidates(sorted, t);
    CandidatesCount(sorted, t);
    forall i | 0 <= i < |cands| ensures cands[i].buy.amount >= 0.0 {
      assert cands[i] in multiset(cands);
      assert cands[i] in multiset(sorted);
      var k :| 0 <= k < |sorted| && sorted[k] == cands[i];
    }
  }

  lemma StepSound(sorted: seq<Trade>, t: Trade, st: Run, index: Prices)
    requires Sound(st) && t.buy.amount >= 0.0
    requires forall k :: 0 <= k < |sorted| ==> sorted[k].buy.amount >= 0.0
    ensures Step(sorted, t, st, index).Success? ==> Sound(Step(sorted, t, st, index).value)
  {
    match GetPrice(t, index)
    case None =>
    case Some(price) =>
      assert Remaining(st.special, t) >= 0.0;
      var a := Acquire(st.pools, st.special, t, price);
      assert forall c :: c in a.pools ==> a.pools[c].total >= 0.0;
      var cands := Candidates(sorted, t);
      CandidatesFrom(sorted, t);
      var m := Matching(st.special, t.sell.amount, 0.0);
      MatchAllKeepsRemainders(cands, m, index);
      match Dispose(sorted, a.pools, st.special, t, index)
      case Failure(_) =>
      case Success(d) =>
        assert forall c :: c in d.pools ==> d.pools[c].total >= 0.0;
        assert RemaindersNonNegative(d.special);
  }

  lemma {:induction false} RunSound(sorted: seq<Trade>, i: nat, st: Run, index: Prices)
    requires i <= |sorted| && Sound(st)
    requires forall k :: 0 <= k < |sorted| ==> sorted[k].buy.amount >= 0.0
    ensures RunFrom(sorted, i, st, index).Success? ==> Sound(RunFrom(sorted, i, st, index).value)
    decreases |sorted| - i
  {
    if i < |sorted| {
      StepSound(sorted, sorted[i], st, index);
      var step := Step(sorted, sorted[i], st, index);
      if step.Success? {
        RunSound(sorted, i + 1, step.value, index);
      }
    }
  }

  /** When no trade acquires a negative quantity, no pool of the report
      holds a negative quantity, however much is sold. */
  lemma PoolsNeverNegative(trades: seq<Trade>, index: Prices)
    requires forall k :: 0 <= k < |trades| ==> trades[k].buy.amount >= 0.0
    ensures var r := CalculateSpec(trades, index);
      r.Success? ==> forall c :: c in r.value.pools ==> r.value.pools[c].total >= 0.0
  {
    var sorted := SortBy(trades, TradeTime);
    forall k | 0 <= k < |sorted| ensures sorted[k].buy.amount >= 0.0 {
      assert sorted[k] in multiset(trades);
      var j :| 0 <= j < |trades| && trades[j] == sorted[k];
    }
    RunSound(sorted, 0, Start, index);
  }
}
