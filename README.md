# A verified model of the cccgt capital-gains engine

cccgt computes UK capital gains tax on cryptocurrency trades. Trades are
imported from exchange exports (Coinbase Pro, Bittrex) or from the Binance
API. Each is valued in GBP, with a historical price index for trades not
made against GBP. The trades are then replayed in date order against one
section 104 pool per asset (section 104 of the Taxation of Chargeable Gains
Act 1992). Before a disposal touches its pool, it is matched against
acquisitions of the same asset made within the 30 days after it (section
106A(5) TCGA 1992). Each trade's record goes into its UK tax year, and the
report sums proceeds, allowable costs and gains.

This project models that core in Dafny and proves its properties.

- `Pooling`: a pool's value (`PoolState`) and the `Pool` class whose `Buy`
  and `Sell` update `total` and `costs` in place.
- `Cgt`: the engine.
  - `CalculateSpec` is the functional specification, made of `Step`,
    `Acquire`, `Dispose`, `MatchOne`/`MatchAll` and `Settle`.
  - `Calculate`, `Replay` and the `...InPlace` methods are the imperative
    loop. They work on a map of `Pool` objects and the `special` side table
    (the remaining unmatched quantity of each matched acquisition), and are
    proved equal to the specification.
- `CgtFacts`: what the engine guarantees.
  - Matching conserves quantity and is greedy.
  - A disposal's allowable costs are its pool share plus its matched costs.
  - There is one record per trade, in date-time order.
  - The result does not depend on input order.
  - No pool goes negative.
- `TaxReports`: `uk_tax_year`, the per-year buckets of `TaxReport::new`,
  `TaxReport::gains` and the `Gains` totals.
- `Prices`: the price index, `Prices::get`, the grouping loop of
  `read_csv`, and `CurrencyPair`'s equality, hash input and display.
- `Exchanges`, `Coinbase`, `Bittrex`, `Binance`: the record-to-trade
  converters.
- Supporting modules:
  - `Calendar`: chrono's dates, with day numbers for `+ 30 days`.
  - `Text`: `split`, `join` and `replace` on one character.
  - `Sorting`: the stable `sort_by_key`.
  - `Wrappers`: `Option` and `Result`.
- `PoolingExample`, `MatchingExample`, `ThirtyDaysExample`: the engine's
  own worked tests, proved about `CalculateSpec`.
- `EdgeCasesExample`: two small replays that show the division by zero and
  the same-day double count described below.

Panics in the source (`expect`, `unwrap`, `panic!`) are modelled as
`Failure` results. The decimal division by zero in `Pool::sell` is the
exception. `Pooling.Sold` and `Pooling.Pool.Sell` require `SaleDefined`,
which is exactly the condition under which the source does not divide by
zero. The engine's `Settle` tests that condition first and returns
`DivisionByZero` when it fails.

Behaviours of the code that the model keeps:

- **Pair equality.** `CurrencyPair` derives `Eq`, so two pairs are equal
  only when both base and quote match. Its `Hash` feeds only the base code,
  twice. `HashAgreesWithEq` and `SharedBaseStaysDistinct` state this.
- **Redundant clause.** `uk_tax_year` has a redundant "on or before
  31 December" clause. `UkTaxYear` keeps it, and `UkTaxYearSpan` proves the
  year boundaries in spite of it.
- **Division by zero.** Only `cost_basis` guards against an empty pool.
  `Pool::sell` divides by the pool's total whenever the sale is no larger
  than the total. A sale of zero or less from an empty pool therefore
  divides by zero. That case happens when later acquisitions matched the
  whole disposal and the pool is empty. `Settle` returns `DivisionByZero`
  there, and `EdgeCasesExample.EmptyPoolDivisionByZero` exhibits it.
- **Same-day acquisitions.** An acquisition earlier on the day of a
  disposal is already in the pool when the disposal is matched. It is also
  one of the disposal's 30-day candidates, because the candidate test
  compares calendar dates. The same quantity is then both pooled and
  matched. `EdgeCasesExample.SameDayBuyPooledAndMatched` exhibits it.
- **Records for every trade.** `calculate` pushes a record for every trade,
  not only for disposals. An acquisition's record has its sale legs valued
  and no allowable costs (`Describes`).

## Model

| member | source | states |
|---|---|---|
| Pooling.PoolState.CostBasis | src/cmd/report/cgt.rs:184-190 | an empty pool's cost basis is zero; otherwise cost basis × total = costs |
| Pooling.Sold | src/cmd/report/cgt.rs:162-182 | a sale within the holding consumes costs × sell/total and leaves total − sell; a larger sale consumes all costs and empties the pool; consumed plus remaining costs always equal the old costs, and the total never goes negative |
| Pooling.SaleKeepsCostBasis | src/cmd/report/cgt.rs:162-190 | a partial sale leaves the pool's average cost unchanged (section 104 averaging) |
| Pooling.SaleWithinCosts | src/cmd/report/cgt.rs:162-182 | a non-negative sale from a pool with non-negative costs consumes between nothing and all of them |
| Pooling.BuyThenSell | src/cmd/report/cgt.rs:151-182 | buying and then selling the same quantity restores the holding and consumes the new average cost of that quantity |
| Pooling.Pool.constructor | src/cmd/report/cgt.rs:139-145 | a new pool holds nothing at no cost |
| Pooling.Pool.Buy | src/cmd/report/cgt.rs:151-160 | the total grows by the bought amount and the costs by the cost; the currency is unchanged |
| Pooling.Pool.Sell | src/cmd/report/cgt.rs:162-182 | the returned cost and the new fields are those of `Sold` on the old fields; it is callable only where the source does not divide by zero |
| Cgt.GetPrice | src/cmd/report/cgt.rs:330-350 | a trade quoted in GBP is priced at its own rate and date-time; otherwise the result is a quote of (quote currency, GBP) from the index on the trade's calendar date, absent exactly when the index has none; any price found is dated on the trade's date |
| Cgt.GetPriceFirstQuote | src/cmd/report/cgt.rs:344-349 | for a trade not quoted in GBP, the price found is the first quote of (quote currency, GBP) in the index's list on the trade's calendar date: no earlier quote in the list has that date |
| Cgt.CandidatesCount | src/cmd/report/cgt.rs:240-248 | the 30-day candidates are exactly the trades that buy the sold currency on or after the disposal's date and before its date-time + 30 days, each as often as it occurs |
| Cgt.MatchOne | src/cmd/report/cgt.rs:253-283 | a candidate with something left matches min(remaining, unmatched sale) at its own price; its remainder and the unmatched sale fall by the same amount; a used-up candidate changes nothing; a missing price for a candidate with something left is an error |
| Cgt.MatchLater | src/cmd/report/cgt.rs:253-283 | the loop over the candidates, with `special_buys`, `main_pool_sell` and `special_allowable_costs` updated in place, equals `MatchAll` |
| Cgt.CalculateSpec | src/cmd/report/cgt.rs:205-328 | a successful report's trades are the input sorted by date-time |
| Cgt.Calculate | src/cmd/report/cgt.rs:205-328 | the imperative `calculate` (sort, replay on pool objects, bucket) returns exactly `CalculateSpec` |
| Cgt.Replay | src/cmd/report/cgt.rs:213-325 | the trade loop, with the pools as objects and the side table updated in place, returns exactly `RunFrom` from the empty state, or its first error |
| Cgt.TradeInPlace | src/cmd/report/cgt.rs:216-324 | one loop iteration: the new pool values, side table and records are those of `Step`, or its error; the pools stay owned by distinct keys |
| Cgt.AcquireAddsRemainder | src/cmd/report/cgt.rs:226-235 | an acquisition of anything but GBP adds to its pool only the part no earlier disposal has matched, at that part's GBP cost, and reports the new pool; an acquisition of GBP and every other pool change nothing |
| Cgt.AcquireInPlace | src/cmd/report/cgt.rs:226-235 | an acquisition of anything but GBP adds its unmatched remainder (or its full amount if never matched) to its pool at that amount's GBP cost, creating the pool if needed |
| Cgt.DisposeInPlace | src/cmd/report/cgt.rs:237-291 | a disposal of anything but GBP is matched against the later acquisitions and the rest sold from its pool, as `Dispose` |
| Cgt.SettleInPlace | src/cmd/report/cgt.rs:285-290 | the unmatched part leaves the pool; allowable costs are the pool's share plus the matched costs (line 289) |
| Cgt.SellFromPool | src/cmd/report/cgt.rs:285-288 | `entry(..).or_insert(Pool::new(..)).sell(..)`: fails exactly where the division is by zero, and otherwise updates only that pool, as `Sold` |
| Cgt.Entry | src/cmd/report/cgt.rs:229-232 | `entry(c).or_insert(Pool::new(c))`: the existing pool, or a fresh empty one added under `c`; no other entry changes |
| Cgt.BuyInPlace | src/cmd/report/cgt.rs:229-234 | buying into the pool of `c` changes no other pool |
| Cgt.SellInPlace | src/cmd/report/cgt.rs:285-290 | selling from the pool of `c` changes no other pool |
| CgtFacts.MatchAllConserves | src/cmd/report/cgt.rs:253-283 | what the candidates give up in total equals what the disposal no longer takes from the pool |
| CgtFacts.MatchAllFrame | src/cmd/report/cgt.rs:253-283 | matching changes no remainder outside the candidates |
| CgtFacts.MatchAllShrinks | src/cmd/report/cgt.rs:253-283 | no remainder grows, and the unmatched sale stays between zero and the sale |
| CgtFacts.MatchAllExhausts | src/cmd/report/cgt.rs:253-283 | when part of the sale is left for the pool, every candidate is used up |
| CgtFacts.MatchAllInOrder | src/cmd/report/cgt.rs:253-283 | among distinct candidates, a later one gives up any quantity only when every earlier one is used up |
| CgtFacts.MatchAllNothingToMatch | src/cmd/report/cgt.rs:253-283 | with nothing (or a negative quantity) left to match, no candidate's remainder falls |
| CgtFacts.CandidatesSorted | src/cmd/report/cgt.rs:240-248 | the candidates drawn from the date-ordered trades are in date-time order, so matching meets them earliest first |
| CgtFacts.MatchAllKeepsRemainders | src/cmd/report/cgt.rs:253-283 | remainders never go negative |
| CgtFacts.CandidatesDistinct | src/cmd/report/cgt.rs:240-248 | the candidates of distinct trades are distinct |
| CgtFacts.DisposeSplitsSale | src/cmd/report/cgt.rs:237-291 | matched quantity plus `main_pool_sell` equals the quantity sold; allowable costs are the pool's consumed cost plus the matched costs; only the sold asset's pool changes |
| CgtFacts.StepRecords | src/cmd/report/cgt.rs:293-324 | each iteration appends one record: its tax year, its price, each leg valued in GBP, the pool snapshots, and no allowable cost for a sale of GBP |
| CgtFacts.RunRecords | src/cmd/report/cgt.rs:216-325 | replaying the trades appends one record per trade, in order |
| CgtFacts.CalculateRecordsEveryTrade | src/cmd/report/cgt.rs:205-328 | `calculate` succeeds exactly when the replay does; then the report holds the sorted trades and their records grouped by tax year |
| CgtFacts.EveryTradePriced | src/cmd/report/cgt.rs:217-220 | `calculate` succeeds only if every trade has a price (the `expect` aborts the run) |
| CgtFacts.YearGainsInTradeOrder | src/cmd/report/cgt.rs:39-63 | asking a computed report for one of its years returns that year's records as stored: they are already in date-time order |
| CgtFacts.CalculateOrderIndependent | src/cmd/report/cgt.rs:211 | permuting the input gives the same report, when no two trades share a date-time |
| CgtFacts.PoolsNeverNegative | src/cmd/report/cgt.rs:205-328 | when no trade buys a negative quantity, no pool in the report holds a negative quantity |
| TaxReports.UkTaxYearSpan | src/cmd/report/cgt.rs:352-360 | tax year t runs from 6 April of t − 1 to 5 April of t, both included |
| TaxReports.FiscalYearBoundary | src/cmd/report/cgt.rs:352-360 | 5 April of y is in tax year y, and 6 April of y in tax year y + 1 |
| TaxReports.InYearCount | src/cmd/report/cgt.rs:39-44 | every disposal lands in its own year's bucket, as often as it occurs, and in no other |
| TaxReports.InYearSorted | src/cmd/report/cgt.rs:39-44 | a bucket of a time-ordered list is time-ordered |
| TaxReports.Buckets | src/cmd/report/cgt.rs:39-44 | the years present are exactly the disposals' years, each with its disposals in order |
| TaxReports.NewTaxReport | src/cmd/report/cgt.rs:33-50 | the loop that pushes each disposal onto its year's list builds exactly that bucketing, and keeps the trades and pools |
| TaxReports.BucketedUnique | src/cmd/report/cgt.rs:39-44 | the bucketing is determined by the disposals |
| TaxReports.GainsOf | src/cmd/report/cgt.rs:52-63 | the result is sorted by trade date-time; a year with a bucket gives that bucket's disposals, and no year or a year without one gives all years' disposals |
| TaxReports.AllDisposalsCount | src/cmd/report/cgt.rs:56-59 | flattening the buckets in any iteration order yields each disposal as often as it was bucketed |
| TaxReports.GainsAreThatYears | src/cmd/report/cgt.rs:52-63 | for a report from `TaxReport::new`, the query for a present year holds that year's disposals and any other query holds every disposal, all sorted |
| TaxReports.TotalGainDecomposes | src/cmd/report/cgt.rs:85-99 | total gain = total proceeds − total allowable costs − total fees, each folded from zero |
| Prices.HashAgreesWithEq | src/cmd/prices.rs:10-21 | equal pairs feed the hasher the same input, and two pairs feed the same input exactly when they share a base |
| Prices.SharedBaseStaysDistinct | src/cmd/prices.rs:10-21 | pairs sharing a base collide in the hash but stay separate keys |
| Prices.DisplaySplitsBack | src/cmd/prices.rs:23-27 | the display `BASE/QUOTE` splits back on '/' into the two codes |
| Prices.FirstOnDate | src/cmd/prices.rs:132-135 | the result is the first quote in the list on the date, and absent exactly when no quote is on that date |
| Prices.Get | src/cmd/prices.rs:129-137 | an unknown pair gives nothing; otherwise the first quote of the pair's list on that calendar date, ignoring the time of day |
| Prices.ParseRecord | src/cmd/prices.rs:111-121 | a record gives a quote exactly when both currencies are known and the date parses; the quote carries the record's pair, date and rate |
| Prices.ParseAll | src/cmd/prices.rs:110-124 | all records parse to one quote each, in order, or the first failing record's error is returned |
| Prices.ReadCsv | src/cmd/prices.rs:103-127 | the loop fails exactly when some record does not parse; otherwise each pair's list holds that pair's quotes in record order, and the map holds no other pair |
| Prices.PricesForCount | src/cmd/prices.rs:122-123 | grouping loses and duplicates nothing: a quote is in its own pair's list as often as in the input, and in no other list |
| Prices.GroupedAppend | src/cmd/prices.rs:122-123 | appending one quote to its pair's list keeps the grouping |
| Exchanges.FirstTwoPresent | src/cmd/import/exchanges/coinbase.rs:41-43 | a market name has a second piece exactly when it holds '-', and neither piece holds '-' |
| Exchanges.FirstTwoOfPair | src/cmd/import/exchanges/coinbase.rs:41-43 | the name `a-b` reads back as (a, b) |
| Coinbase.CoinbaseOutcome | src/cmd/import/exchanges/coinbase.rs:33-65 | the import succeeds exactly when the date parses, the product has a quote part and the side is BUY or SELL; a date error is returned, the other two are panics, checked in that order |
| Coinbase.CoinbaseLegs | src/cmd/import/exchanges/coinbase.rs:41-62 | BUY buys `size` of the base and sells the negated `total` of the quote; SELL sells `size` of the base for `total` of the quote; fee in the `unit` currency, rate = price, exchange "Coinbase Pro" |
| Coinbase.CoinbaseRoundTrip | src/cmd/import/exchanges/coinbase.rs:33-65 | importing the row written for a trade gives back that trade |
| Coinbase.CoinbaseIgnores | src/cmd/import/exchanges/coinbase.rs:14-31 | the trade id, the size unit and anything after the product's second piece do not affect the import |
| Coinbase.CoinbaseSample | src/cmd/import/exchanges/coinbase.rs:11-12 | the sample row imports as a sale of 5.41307455 ETH for 549.721646342011 GBP at 101.86 |
| Bittrex.BittrexOutcome | src/cmd/import/exchanges/bittrex.rs:34-65 | the import succeeds exactly when the closing date parses, the market has a base part and the order type is LIMIT_BUY or LIMIT_SELL; every failure is a panic, checked in that order |
| Bittrex.BittrexLegs | src/cmd/import/exchanges/bittrex.rs:38-61 | the market reads quote first; LIMIT_BUY buys `Quantity` of the base for `Price` of the quote; LIMIT_SELL the reverse; fee is `CommissionPaid` in the quote; rate = `Limit`; the date comes from `Closed` |
| Bittrex.BittrexRoundTrip | src/cmd/import/exchanges/bittrex.rs:34-65 | importing the row written for a trade gives back that trade |
| Bittrex.BittrexIgnores | src/cmd/import/exchanges/bittrex.rs:38-53 | the order id, the opening date and anything after the market's second piece do not affect the import |
| Binance.SplitMillisFacts | src/cmd/import/exchanges/binance/api.rs:158-160 | nanos are whole milliseconds below 10^9, and seconds × 1000 + nanos / 10^6 gives back the time, up to 2^63 ms |
| Binance.SplitOfMillis | src/cmd/import/exchanges/binance/api.rs:158-160 | splitting the milliseconds of a non-negative (seconds, whole-millisecond nanos) gives them back |
| Binance.BinanceOutcome | src/cmd/import/exchanges/binance/api.rs:153-185 | the conversion fails, by a panic, exactly when the timestamp is out of range |
| Binance.BinanceLegs | src/cmd/import/exchanges/binance/api.rs:162-182 | the base leg is `qty` of the base and the quote leg `qty × price` of the quote; a buyer buys the base and a seller sells it; rate = price, fee = commission in its asset, exchange "Binance" |
| Binance.BinanceSidesMirror | src/cmd/import/exchanges/binance/api.rs:167-171 | the buyer's and the seller's view of the same fill swap the two legs and keep everything else |
| Binance.CollectRecords | src/cmd/import/exchanges/binance/api.rs:118-128 | one record per trade in order, or the first failure |
| Binance.ConvertTradesOutcome | src/cmd/import/exchanges/binance/api.rs:105-130 | a symbol without '-' is invalid; an unknown base, then an unknown quote, is an error; otherwise it fails exactly when some timestamp is out of range, and else returns one record per trade in order |
| Binance.ApiSymbolFacts | src/cmd/import/exchanges/binance/api.rs:45 | the API symbol has no '-', is the concatenation of the symbol's pieces, and removing '-' again changes nothing |
| Binance.ApiSymbolOfPair | src/cmd/import/exchanges/binance/api.rs:45 | `BASE-QUOTE` is sent as `BASEQUOTE`, and `convert_trades` reads it as (BASE, QUOTE) |
| PoolingExample.HmrcPoolingExample | src/cmd/report/cgt.rs:416-437 | tax year 2018 has proceeds 300,000 GBP, allowable costs 42,000 GBP and gain 258,000 GBP |
| PoolingExample.HmrcPoolingExampleOutOfOrder | src/cmd/report/cgt.rs:439-460 | the same trades given latest first give the same report |
| PoolingExample.PartialAllowableCosts | src/cmd/report/cgt.rs:595-609 | selling 2 from a pool of 1 bought for 1,000 GBP has allowable costs of 1,000 GBP |
| MatchingExample.MultipleSellsWithSameBuyWithin30Days | src/cmd/report/cgt.rs:529-551 | the first sale of 2019 has proceeds 40,000, allowable costs 25,000 and gain 15,000 GBP; the pool keeps 70 units at 70,000 GBP |
| ThirtyDaysExample.AcquiringWithin30DaysOfSelling | src/cmd/report/cgt.rs:462-493 | proceeds 160,000 GBP; allowable costs 67,500.000001 and gain 92,499.999999 GBP; the pool keeps 10,500 units at 150,000.000003 GBP |
| ThirtyDaysExample.MultipleAcquisitionsWithin30Days | src/cmd/report/cgt.rs:495-527 | matching against two 250-unit buys in date order gives the same figures as the single 500-unit buy |
| ThirtyDaysExample.AcquisitionGreaterThanDisposalReturnedToPool | src/cmd/report/cgt.rs:553-593 | the whole sale is matched at 140,000 GBP for a gain of 20,000 GBP, and the 1,000 unmatched units enter the pool, which ends at 15,000 units for 235,000.000004 GBP |
| Sorting.SortBySorted | src/cmd/report/cgt.rs:211 | the sort's output is in date-time order (and, by `SortBy`'s contract, a permutation of its input) |
| Sorting.SortByOrderIndependent | src/cmd/report/cgt.rs:211 | when no two elements share a key, the sort's result depends only on the multiset of its input |
| Sorting.SortByKeepsSorted | src/cmd/report/cgt.rs:61 | sorting an already ordered list leaves it as it is |
| Sorting.InsertStable | src/cmd/report/cgt.rs:211 | inserting into a sorted list places the new element after every element with the same key |
| Sorting.SortByStable | src/cmd/report/cgt.rs:211 | the sort is stable: the elements sharing any one key appear in the output in their input order |
| EdgeCasesExample.EmptyPoolDivisionByZero | src/cmd/report/cgt.rs:237-291 | a sale from an empty pool that a buy-back the next day matches in full leaves a sale of zero from the empty pool, and `calculate` fails with the division by zero |
| EdgeCasesExample.SameDayBuyPooledAndMatched | src/cmd/report/cgt.rs:226-291 | a unit bought in the morning for 1,000 GBP and sold that evening for 1,500 GBP is matched (allowable costs 1,000, gain 500) and still held in the pool at 1,000 GBP |
| Text.SplitJoin | src/cmd/import/exchanges/coinbase.rs:41 | `split` undoes joining with the separator when no piece contains it |
| Text.WithoutIsConcatOfSplit | src/cmd/import/exchanges/binance/api.rs:45 | `replace("-", "")` is the concatenation of the pieces `split('-')` yields |

## Left out

- Network and paging are not modelled. This covers the Binance signed
  request, `get_trade_history`'s paging loop and `Prices::from_coingecko_api`.
- CSV and serde deserialisation are not modelled. `read_csv` starts from
  already-deserialised records, so a record that fails to deserialise is not
  represented. The same applies to `write_csv`, the CLI structs, `exec` and
  the logging.
- chrono's parsing and construction are parameters: `parse_from_str`,
  RFC 3339 parsing with conversion to UTC, and `from_timestamp`. Each is a
  partial function from text or numbers to a date-time. `Calendar` models
  only the date order and day arithmetic the engine uses.
- `crate::money` and `currencies` are not part of this model. A currency is
  its code, and `amount(code, x)` is `Money(x, code)`. The importers'
  `amount` calls therefore never reject an unknown code. `currencies::find`
  is a set `known` of codes.
- `Price::convert_to_gbp` is not part of this model. `Cgt.ConvertToGbp`
  takes it as amount × the price's rate, which is what the engine's tests
  imply, and this has three consequences.
  - It drops the second argument, the trade's own `rate` (`trade.rate` at
    src/cmd/report/cgt.rs lines 229, 296, 302 and 308, `future_buy.rate` at
    line 273).
  - It drops the error the `?` at those five calls can return, so a
    conversion never fails in the model.
  - In a trade not quoted in GBP, every leg that is not GBP is valued at
    the GBP rate of the trade's quote currency. For example, 10 ETH bought
    for 0.5 BTC is costed as 10 BTC. The engine's tests trade only against
    GBP, where the price's rate is the trade's rate.
- `Trade::key` is not part of this model. It is taken as injective: the key
  is the trade itself.
- `TradeRecord::from` is a parameter (`toRecord`) of `Binance.ConvertTrades`.
- `rust_decimal` precision and rounding are not modelled. Amounts are exact
  reals, and the engine adds GBP amounts without `Money`'s currency checks.
- ThirtyDaysExample.AcquiringWithin30DaysOfSelling states exact values that
  differ from the test's figures (67,500.00, 92,500.00, 150,000.00) by less
  than a penny. The test's rate 14.285714286 makes 14,000 units cost
  200,000.000004 GBP, and the test compares amounts shown to two decimals.
  The same holds for ThirtyDaysExample.MultipleAcquisitionsWithin30Days and
  ThirtyDaysExample.AcquisitionGreaterThanDisposalReturnedToPool (235,000.00).
- CgtFacts.CalculateOrderIndependent requires that no two trades share a
  date-time. The sort is stable, so trades with equal date-times keep their
  input order, and the report can then depend on it.
- CgtFacts.DisposeSplitsSale requires the sorted trades to be distinct. A
  trade listed twice is one key in `special_buys` but two candidates, so
  conservation is stated only for distinct trades.
- TaxReports.GainsOf takes the `HashMap`'s iteration order of the years as
  a parameter. Its result is stated as a multiset and as sorted. Records
  with equal date-times from different years may appear in an order that
  depends on that iteration order.
- The Rust `Hasher` is not modelled. The hash is stated as its input, the
  base code fed twice.
- The `fmt::Debug`/`Display` output of `Pool` and the `assert_money_eq!`
  string comparison are not modelled.
- Binance.SplitMillisFacts states the round trip only for times below 2^63
  ms. The `u64 as i64` cast wraps above that, and `AsI64` models the wrap.
- Same-day double count: a trade dated the same day as a disposal, but
  earlier in the day, is both in the pool and a 30-day candidate of that
  disposal. The candidate test uses `DateLe` on the calendar date. The
  model keeps this, as the code does. `EdgeCasesExample.SameDayBuyPooledAndMatched`
  shows it, and no lemma states a corrected rule.
