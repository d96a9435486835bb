/** The engine's output: one disposal record per trade, grouped into UK tax
    years, and the summaries a report reads from them. */
module TaxReports {
  import opened Wrappers
  import opened Calendar
  import opened Trades
  import opened Prices
  import opened Pooling
  import opened Sorting

  /** A UK tax year, named by the calendar year in which it ends. */
  type Year = int

  /** `uk_tax_year`: after 5 April (and, redundantly, on or before
      31 December) of its calendar year, a date belongs to the tax year ending
      the next calendar year. */
  function UkTaxYear(dt: DateTime): Year {
    var date := dt.date;
    var year := date.year;
    if DateLt(Date(year, 4, 5), date) && DateLe(date, Date(year, 12, 31)) then year + 1 else year
  }

  /** Tax year `t` runs from 6 April of `t - 1` to 5 April of `t`, both included. */
  lemma UkTaxYearSpan(dt: DateTime, t: Year)
    requires ValidDate(dt.date)
    ensures UkTaxYear(dt) == t <==> DateLe(Date(t - 1, 4, 6), dt.date) && DateLe(dt.date, Date(t, 4, 5))
  {
    var d := dt.date;
    assert DateLe(d, Date(d.year, 12, 31));
    assert DateLt(Date(d.year, 4, 5), d) <==> DateLe(Date(d.year, 4, 6), d);
  }

  /** 5 April of `y` is in tax year `y`; 6 April of `y` is in tax year `y + 1`. */
  lemma FiscalYearBoundary(y: int, nanos: int)
    ensures UkTaxYear(DateTime(Date(y, 4, 5), nanos)) == y
    ensures UkTaxYear(DateTime(Date(y, 4, 6), nanos)) == y + 1
  {
  }

  /** The GBP valuation of one trade. All money fields are GBP amounts; the
      pools are snapshots taken right after this trade was applied. */
  datatype Disposal = Disposal(
    trade: Trade,
    taxYear: Year,
    buyValue: real,
    sellValue: real,
    feeValue: real,
    price: Price,
    allowableCosts: real,
    buyPool: Option<PoolState>,
    sellPool: Option<PoolState>)
  {
    /** `Disposal::proceeds` (fees are not deducted here). */
    function Proceeds(): real {
      sellValue
    }

    /** `Disposal::gain`: proceeds less allowable costs less the fee. */
    function Gain(): real {
      sellValue - allowableCosts - feeValue
    }
  }

  function DisposalTime(d: Disposal): DateTime {
    d.trade.dateTime
  }

  datatype TaxYear = TaxYear(year: Year, disposals: seq<Disposal>)

  datatype TaxReport = TaxReport(trades: seq<Trade>, years: map<Year, TaxYear>, pools: map<string, PoolState>)

  /** The disposals of `ds` that fall in tax year `y`, in their order in `ds`. */
  function InYear(ds: seq<Disposal>, y: Year): (r: seq<Disposal>)
    ensures forall d :: d in r ==> d.taxYear == y
  {
    if ds == [] then []
    else InYear(ds[..|ds| - 1], y) + (if ds[|ds| - 1].taxYear == y then [ds[|ds| - 1]] else [])
  }

  /** Every disposal lands in the bucket of its own tax year, as often as it
      occurs, and in no other bucket. */
  lemma {:induction false} InYearCount(ds: seq<Disposal>, y: Year, d: Disposal)
    ensures multiset(InYear(ds, y))[d] == if d.taxYear == y then multiset(ds)[d] else 0
  {
    if ds != [] {
      var init, last := ds[..|ds| - 1], ds[|ds| - 1];
      InYearCount(init, y, d);
      assert ds == init + [last];
      assert multiset(ds) == multiset(init) + multiset{last};
    }
  }

  lemma {:induction false} InYearAbsent(ds: seq<Disposal>, y: Year)
    requires forall k :: 0 <= k < |ds| ==> ds[k].taxYear != y
    ensures InYear(ds, y) == []
  {
    if ds != [] {
      InYearAbsent(ds[..|ds| - 1], y);
    }
  }

  /** A bucket of a time-ordered disposal list is time-ordered. */
  lemma {:induction false} InYearSorted(ds: seq<Disposal>, y: Year)
    requires SortedBy(ds, DisposalTime)
    ensures SortedBy(InYear(ds, y), DisposalTime)
  {
    if ds != [] {
      var init, last := ds[..|ds| - 1], ds[|ds| - 1];
      assert SortedBy(init, DisposalTime);
      InYearSorted(init, y);
      var r := InYear(init, y);
      forall i | 0 <= i < |r| ensures Le(DisposalTime(r[i]), DisposalTime(last)) {
        assert r[i] in multiset(r);
        InYearCount(init, y, r[i]);
        assert r[i] in multiset(init);
        var k :| 0 <= k < |init| && init[k] == r[i];
        assert ds[k] == r[i];
      }
    }
  }

  /** The tax years `ds` touches, each with its disposals in order. */
  ghost predicate Bucketed(years: map<Year, TaxYear>, ds: seq<Disposal>) {
    && (forall y :: y in years <==> exists k :: 0 <= k < |ds| && ds[k].taxYear == y)
    && forall y :: y in years ==> years[y] == TaxYear(y, InYear(ds, y))
  }

  /** The same grouping as a value. */
  function Buckets(ds: seq<Disposal>): (m: map<Year, TaxYear>)
    ensures Bucketed(m, ds)
  {
    var ys := set k | 0 <= k < |ds| :: ds[k].taxYear;
    map y | y in ys :: TaxYear(y, InYear(ds, y))
  }

  /** A bucketing is determined by the disposals. */
  lemma BucketedUnique(m: map<Year, TaxYear>, ds: seq<Disposal>)
    requires Bucketed(m, ds)
    ensures m == Buckets(ds)
  {
    var b := Buckets(ds);
    forall y ensures y in m <==> y in b {
      assert y in m <==> exists k :: 0 <= k < |ds| && ds[k].taxYear == y;
      assert y in b <==> exists k :: 0 <= k < |ds| && ds[k].taxYear == y;
    }
    assert m.Keys == b.Keys;
  }

  /** `TaxReport::new`: pushes each disposal onto its tax year's list. */
  method NewTaxReport(trades: seq<Trade>, gains: seq<Disposal>, pools: map<string, PoolState>) returns (r: TaxReport)
    ensures r.trades == trades && r.pools == pools
    ensures Bucketed(r.years, gains)
  {
    var taxYears: map<Year, TaxYear> := map[];
    var i := 0;
    while i < |gains|
      invariant 0 <= i <= |gains|
      invariant Bucketed(taxYears, gains[..i])
    {
      var gain := gains[i];
      var year := gain.taxYear;
      var ty := if year in taxYears then taxYears[year] else TaxYear(year, []);
      BucketedAppend(taxYears, gains[..i], gain);
      taxYears := taxYears[year := TaxYear(ty.year, ty.disposals + [gain])];
      assert gains[..i + 1] == gains[..i] + [gain];
      i := i + 1;
    }
    assert gains[..i] == gains;
    r := TaxReport(trades, taxYears, pools);
  }

  lemma BucketedAppend(m: map<Year, TaxYear>, ds: seq<Disposal>, d: Disposal)
    requires Bucketed(m, ds)
    ensures var ty := if d.taxYear in m then m[d.taxYear] else TaxYear(d.taxYear, []);
      Bucketed(m[d.taxYear := TaxYear(ty.year, ty.disposals + [d])], ds + [d])
  {
    var after := ds + [d];
    var y := d.taxYear;
    var ty := if y in m then m[y] else TaxYear(y, []);
    var m' := m[y := TaxYear(ty.year, ty.disposals + [d])];
    assert after[..|after| - 1] == ds;
    if y !in m {
      InYearAbsent(ds, y);
    }
    forall z ensures z in m' <==> exists k :: 0 <= k < |after| && after[k].taxYear == z {
      if z != y && exists k :: 0 <= k < |after| && after[k].taxYear == z {
        var k :| 0 <= k < |after| && after[k].taxYear == z;
        assert k < |ds| && ds[k].taxYear == z;
      }
      if z in m {
        var k :| 0 <= k < |ds| && ds[k].taxYear == z;
        assert after[k] == ds[k];
      }
      if z == y {
        assert after[|ds|].taxYear == z;
      }
    }
  }

  /** `order` lists the years of the map once each: a `HashMap` iteration order. */
  ghost predicate IterationOrder(order: seq<Year>, years: map<Year, TaxYear>) {
    && (forall i, j :: 0 <= i < j < |order| ==> order[i] != order[j])
    && (forall i :: 0 <= i < |order| ==> order[i] in years)
    && forall y :: y in years ==> y in order
  }

  /** The disposals of all years, visiting the years in `order` (`flat_map`). */
  function AllDisposals(years: map<Year, TaxYear>, order: seq<Year>): seq<Disposal>
    requires forall i :: 0 <= i < |order| ==> order[i] in years
  {
    if order == [] then [] else years[order[0]].disposals + AllDisposals(years, order[1..])
  }

  /** A view over the report for one tax year or for all of them. */
  datatype Gains = Gains(year: Option<Year>, gains: seq<Disposal>)

  /** `TaxReport::gains`: the requested year's disposals, or every year's when
      no year is given or the year has none, sorted by trade date-time.
      `order` is the order in which the report's `HashMap` yields its years. */
  function GainsOf(report: TaxReport, year: Option<Year>, order: seq<Year>): (g: Gains)
    requires IterationOrder(order, report.years)
    ensures g.year == year
    ensures SortedBy(g.gains, DisposalTime)
    ensures year.Some? && year.value in report.years ==>
      multiset(g.gains) == multiset(report.years[year.value].disposals)
    ensures !(year.Some? && year.value in report.years) ==>
      multiset(g.gains) == multiset(AllDisposals(report.years, order))
  {
    var selected :=
      if year.Some? && year.value in report.years then report.years[year.value].disposals
      else AllDisposals(report.years, order);
    SortBySorted(selected, DisposalTime);
    Gains(year, SortBy(selected, DisposalTime))
  }

  /** Flattening a bucketing in any iteration order yields every disposal
      exactly as often as it was bucketed. */
  lemma {:induction false} AllDisposalsCount(ds: seq<Disposal>, order: seq<Year>, d: Disposal)
    requires forall i, j :: 0 <= i < j < |order| ==> order[i] != order[j]
    requires forall i :: 0 <= i < |order| ==> order[i] in Buckets(ds)
    ensures multiset(AllDisposals(Buckets(ds), order))[d] == if d.taxYear in order then multiset(ds)[d] else 0
  {
    if order != [] {
      var b, rest := Buckets(ds), order[1..];
      DistinctTail(order);
      AllDisposalsCount(ds, rest, d);
      InYearCount(ds, order[0], d);
      var head, tail := InYear(ds, order[0]), AllDisposals(b, rest);
      assert AllDisposals(b, order) == head + tail;
      assert multiset(head + tail)[d] == multiset(head)[d] + multiset(tail)[d];
      assert d.taxYear in order <==> d.taxYear == order[0] || d.taxYear in rest;
    }
  }

  /** The tail of a sequence without repetitions has none and lacks the head. */
  lemma DistinctTail(order: seq<Year>)
    requires order != []
    requires forall i, j :: 0 <= i < j < |order| ==> order[i] != order[j]
    ensures forall i, j :: 0 <= i < j < |order[1..]| ==> order[1..][i] != order[1..][j]
    ensures order[0] !in order[1..]
  {
    var rest := order[1..];
    forall i, j | 0 <= i < j < |rest| ensures rest[i] != rest[j] {
      assert rest[i] == order[i + 1] && rest[j] == order[j + 1];
    }
  }

  /** Querying a report built by `TaxReport::new`: a year that has disposals
      gives exactly that year's disposals, and no year (or a year with none)
      gives every disposal; both in date-time order. */
  lemma GainsAreThatYears(trades: seq<Trade>, ds: seq<Disposal>, pools: map<string, PoolState>,
                          year: Option<Year>, order: seq<Year>, d: Disposal)
    requires IterationOrder(order, Buckets(ds))
    ensures var g := GainsOf(TaxReport(trades, Buckets(ds), pools), year, order);
      && SortedBy(g.gains, DisposalTime)
      && multiset(g.gains)[d] ==
           if year.Some? && year.value in Buckets(ds) then (if d.taxYear == year.value then multiset(ds)[d] else 0)
           else multiset(ds)[d]
  {
    var b := Buckets(ds);
    if year.Some? && year.value in b {
      InYearCount(ds, year.value, d);
    } else {
      AllDisposalsCount(ds, order, d);
      if d in multiset(ds) {
        var k :| 0 <= k < |ds| && ds[k] == d;
        assert d.taxYear in b;
      }
    }
  }

  /** The totals fold each field over the disposals from a GBP zero. */
  function TotalProceeds(ds: seq<Disposal>): real {
    if ds == [] then 0.0 else TotalProceeds(ds[..|ds| - 1]) + ds[|ds| - 1].Proceeds()
  }

  function TotalAllowableCosts(ds: seq<Disposal>): real {
    if ds == [] then 0.0 else TotalAllowableCosts(ds[..|ds| - 1]) + ds[|ds| - 1].allowableCosts
  }

  function TotalFees(ds: seq<Disposal>): real {
    if ds == [] then 0.0 else TotalFees(ds[..|ds| - 1]) + ds[|ds| - 1].feeValue
  }

  function TotalGain(ds: seq<Disposal>): real {
    if ds == [] then 0.0 else TotalGain(ds[..|ds| - 1]) + ds[|ds| - 1].Gain()
  }

  /** Total gain is total proceeds less total allowable costs less total fees. */
  lemma {:induction false} TotalGainDecomposes(ds: seq<Disposal>)
    ensures TotalGain(ds) == TotalProceeds(ds) - TotalAllowableCosts(ds) - TotalFees(ds)
  {
    if ds != [] {
      TotalGainDecomposes(ds[..|ds| - 1]);
    }
  }
}
