# market-tax-calc core in Dafny

This project models the decision logic of a converter. The converter takes a
brokerage transaction export and produces a PLN tax report. For each row it does
four things:

1. It resolves the date whose National Bank of Poland (NBP) mid rate applies. The
   rules involve T+2 and T+1 settlement, the US switch to T+1 on 2024-05-28, and a
   "day before" override for fees and crypto. A date that lands on a weekend rolls
   back to the preceding Friday.
2. It looks that rate up in per-currency tables, with one holiday fallback.
3. It converts, signs, rounds and formats the amounts.
4. The rows are then filtered to market orders and dividends and sorted. In the
   stock export, a separator row goes between asset symbols.

All of it is written as pure functions over immutable datatypes, with lemmas
about them.

Modules (one file each):

- `Results` (`results.dfy`): `Option`, where `None` stands for JavaScript's
  `undefined`, and `Result`, whose `Failure` is a thrown error.
- `Rows` (`rows.dfy`): the input and output row records, dates as day ordinals
  (days since 1970-01-01 UTC), and `Num`. `Num` is a JavaScript number: a finite
  real or `NaN`.
- `Dates` (`dates.dfy`): `getDateWithOffset` and `getEffectiveDate`.
- `Nbp` (`nbp.dfy`): the EUR/USD rate tables, the fill loop
  and `getRate`.
- `Amounts` (`amounts.dfy`): `*` with `NaN` propagation, `roundAmount` and
  `formatAmount`.
- `Ordering` (`ordering.dfy`): `TypeScore`, `SideScore`, both comparators, and the
  sort the export applies.
- `Grouping` (`grouping.dfy`): `groupByAsset`.
- `Export` (`export.dfy`): the per-row mapping, the `Type` filter and the whole
  pipeline after the rates are loaded.

Behaviour of the code worth noting:

- The rate fallback goes to `getDateWithOffset(date, -1)`, the previous business
  day. A Monday without a rate therefore falls back to the Friday before.
- When neither that day nor the fallback day has a rate, `getRate` returns
  `undefined`. The amounts computed from an `undefined` rate are then `NaN`,
  and the rate columns print "undefined".
- `Math.round` rounds half a cent toward +infinity: 0.005 becomes 0.01 and
  -0.005 becomes 0.

## Model

| member | source | states |
|---|---|---|
| Dates.DateWithOffset | src/services/date.ts:3-14 | the result is never a Saturday or Sunday; it lies between date+offset-2 and date+offset; no business day lies between it and date+offset |
| Dates.DateWithOffsetByWeekday | src/services/date.ts:4-10 | when date+offset is a Saturday the result is one day earlier; on a Sunday, two days earlier; on any weekday it is date+offset itself |
| Dates.DateWithOffsetIsLatestBusinessDay | src/services/date.ts:4-10 | any business day at or before date+offset with no business day after it (up to date+offset) is the result, so the roll-back finds the latest business day |
| Dates.DateWithOffsetIdempotent | src/services/date.ts:6-12 | resolving an already resolved date with offset 0 returns it unchanged |
| Dates.EffectiveDate | src/services/date.ts:16-25 | forced rows use offset -1 whatever the currency and date; EUR rows use +1 on every date; USD rows use +1 before 2024-05-28 and 0 from then on; the result lies within 3 days before to 1 day after the trade |
| Dates.UsSettlementBoundary | src/services/date.ts:18-19 | a USD trade on 2024-05-27 takes offset +1 and one on 2024-05-28 takes offset 0; both resolve to 2024-05-28 |
| Dates.DayBeforeMondayIsFriday | src/services/date.ts:20-24 | the day-before date of a Monday trade is the preceding Friday |
| Nbp.LastMid | src/services/nbp.ts:32-34 | reference for the fill: it is absent exactly when no listed point carries the date |
| Nbp.LastMidIsLastPoint | src/services/nbp.ts:32-34 | the value stored for a date is the mid of the last listed point with that date |
| Nbp.Fill | src/services/nbp.ts:32-34 | after the fill, a key is present iff it was present before or is listed; a listed key holds the mid of its last point; every other key keeps its previous value |
| Nbp.FillContainsListedDates | src/services/nbp.ts:32-34 | every effective date in the response becomes a key of the table |
| Nbp.FillIdempotent | src/services/nbp.ts:32-34 | filling the same response twice gives the same table as filling it once |
| Nbp.LoadRates | src/services/nbp.ts:19-34 | a response for one currency fills that currency's table and leaves the other currency's table unchanged |
| Nbp.GetRate | src/services/nbp.ts:46-54 | fails iff the currency's table is empty; otherwise returns the entry for the date if present, else the entry for the previous business day if present; returns undefined iff both are missing |
| Nbp.GetRateEmptyFails | src/services/nbp.ts:48-50 | an empty table makes every lookup fail with the not-loaded error |
| Nbp.GetRateReadsOnlyItsTable | src/services/nbp.ts:47 | two table sets with the same table for the requested currency give the same lookup, so the other currency's table is irrelevant |
| Nbp.GetRateMondayFallsBackToFriday | src/services/nbp.ts:52-53 | a Monday without a rate falls back to the preceding Friday's rate |
| Nbp.GetRateTwoDayGapIsUndefined | src/services/nbp.ts:52-53 | there is only one fallback step: with 2024-12-25 and 2024-12-26 missing, a lookup on 2024-12-26 yields undefined even though 2024-12-24 has a rate |
| Amounts.Times | src/index.ts:100-102 | a product is NaN iff a factor is NaN (an undefined rate), and is otherwise the real product |
| Amounts.RoundCents | src/index.ts:49-52 | the result is a whole number of cents in the window (x - 0.005, x + 0.005] |
| Amounts.RoundCentsUnique | src/index.ts:49-52 | any whole number of cents in that window is the result, so the rounding is exactly round-half-up to cents |
| Amounts.RoundCentsKeepsCents | src/index.ts:49-52 | an amount already in whole cents is unchanged |
| Amounts.RoundCentsHalfUp | src/index.ts:51 | half a cent rounds toward +infinity: 0.005 becomes 0.01 and -0.005 becomes 0 |
| Amounts.RoundAmount | src/index.ts:49-52 | NaN stays NaN; a finite amount becomes whole cents within half a cent of it |
| Amounts.ReplaceFirst | src/index.ts:55 | keeps the length; only the first occurrence of the searched character is replaced and every other character is unchanged |
| Amounts.FormatAmount | src/index.ts:54-56 | keeps the length; a text without '.' is unchanged; otherwise its first '.' becomes ',' and every other character is kept |
| Amounts.FormatAmountKeepsLaterPoints | src/index.ts:54-56 | a second '.' is not rewritten |
| Ordering.TypeScore | src/index.ts:6-11 | ranks are 1 to 4; rank 1 is exactly a market order, and the two taxable types (market order, dividend) are exactly those ranked at most 2 |
| Ordering.SideScore | src/index.ts:13-17 | ranks are -1 to 1; negative exactly for a buy, positive exactly for a sell |
| Ordering.ScoresInjective | src/index.ts:6-17 | distinct types have distinct type ranks and distinct sides have distinct side ranks |
| Ordering.LocaleCompare | src/index.ts:21 | symbol comparison yields -1, 0 or 1, and 0 exactly for equal symbols |
| Ordering.LocaleCompareAntisymmetric | src/index.ts:21 | swapping the two symbols negates the comparison |
| Ordering.LocaleCompareTransitive | src/index.ts:21 | symbol comparison is transitive |
| Ordering.CryptoCompare | src/index.ts:28-32 | the crypto comparator is 0 iff type, side and order date agree, and negative iff the first row comes earlier in lexicographic (type rank, side rank, date) order |
| Ordering.CryptoCompareAntisymmetric | src/index.ts:28-32 | cmp(a, a) = 0, and the sign of cmp(b, a) is minus the sign of cmp(a, b) |
| Ordering.CryptoCompareTransitive | src/index.ts:28-32 | the crypto comparator is a transitive total preorder |
| Ordering.StockCompare | src/index.ts:20-25 | the stock comparator is 0 iff symbol, type, side and order date agree, and negative iff the first row comes earlier by symbol, then by the crypto order among rows of one symbol |
| Ordering.StockCompareAntisymmetric | src/index.ts:20-25 | cmp(a, a) = 0, and the sign of cmp(b, a) is minus the sign of cmp(a, b) |
| Ordering.StockCompareTransitive | src/index.ts:20-25 | the stock comparator is a transitive total preorder |
| Ordering.Insert | src/index.ts:111 | inserting into a sorted sequence keeps it sorted and adds exactly the new row |
| Ordering.Sort | src/index.ts:110-111 | the sorted output is ordered by the chosen comparator and is a permutation of the input |
| Ordering.SortedPairwise | src/index.ts:111 | in the sorted output every row precedes or ties with every later row |
| Ordering.SortedStockSymbolsContiguous | src/index.ts:110-114 | after the stock sort, the rows of each symbol form a single run, so grouping separates whole symbols |
| Ordering.SortStable | src/index.ts:111 | the sort is stable: the rows that tie with any given row keep their input order in the output |
| Grouping.GroupByAsset | src/index.ts:34-47 | the output has n + (number of neighbouring symbol changes) cells and starts with the first row |
| Grouping.GroupByAssetRows | src/index.ts:34-47 | deleting the separators gives back the input list |
| Grouping.GroupByAssetWellSeparated | src/index.ts:36-44 | a separator stands only between two rows of different symbols (never first, last or doubled), and rows of different symbols never touch |
| Grouping.GroupByAssetUnique | src/index.ts:34-47 | any cell list that holds the input rows in order and is well separated equals the grouping output |
| Export.QuantityMultiplier | src/index.ts:83 | the multiplier is 1 or -1, and negative exactly for a sell |
| Export.ValueMultiplier | src/index.ts:84 | the multiplier is 1 or -1, and negative exactly for a buy |
| Export.ConvertAt | src/index.ts:93-102 | the rates and dates are carried; the quantity is NaN iff the input quantity is; value and withholding tax are NaN iff their input is NaN or the rate is undefined; the fee is NaN iff the input fee is NaN or the fee rate is undefined |
| Export.Convert | src/index.ts:79-82 | fails iff a needed table is empty; the settlement rate is looked up in the market currency's table at the effective date; the fee rate always in the EUR table at the day-before date |
| Export.QuantityNegatedIffSell | src/index.ts:83-93 | a non-zero quantity comes out negated iff the side is Sell, and unchanged otherwise |
| Export.ValueNegatedIffBuy | src/index.ts:84-100 | with a known rate the value is whole cents within half a cent of amount x rate, negated iff the side is Buy |
| Export.WithholdingTaxNegated | src/index.ts:102 | withholding tax is always the rounded converted tax, negated |
| Export.FeeUsesEurDayBefore | src/index.ts:80-82 | whenever the EUR table and the tables of the market currencies involved are loaded, the fee is the same whatever the export kind, market currency or contents of the USD table; it is the fee converted at the EUR rate of the day before |
| Export.UndefinedRateGivesNaN | src/index.ts:100-102 | when no rate is found, the value and withholding tax are NaN |
| Export.WorkedUsdBuy | src/index.ts:78-104 | a USD buy of 5 units for 100, fee 1, on Monday 2024-06-03, at USD 4.00 and a previous-Friday EUR rate of 4.30, gives quantity 5, value -400.00 and fee 4.30 |
| Amounts.Show | src/index.ts:55 | NaN prints as "NaN", which the decimal-comma rewrite leaves unchanged; a finite number prints as the runtime renders it |
| Export.ShowRate | src/index.ts:98-99 | an undefined rate prints as "undefined"; a known rate prints as its number with a decimal comma |
| Export.Render | src/index.ts:86-103 | the descriptive columns pass through, the fee currency is EUR, an undefined rate prints as "undefined" and a NaN amount as "NaN" |
| Export.MapRow | src/index.ts:78-103 | fails iff a needed table is empty (exactly when Convert fails); otherwise the row keeps order date, title, symbol, type, side, price and market currency, records the effective date, names EUR as fee currency, and prints quantity, both rates, value, fee and withholding tax as Convert computes them, with a decimal comma |
| Export.MapOrThrow | src/index.ts:78 | a successful map has one result per input, each being that input's mapping; a failure is the error of some input |
| Export.KeptForTax | src/index.ts:107 | a row is kept exactly when its type ranks before deposits and withdrawals, i.e. it is a market order or a dividend |
| Export.FilterMarket | src/index.ts:106-108 | only market orders and dividends remain, each of them remains, and nothing is added |
| Export.FilterMarketAppend | src/index.ts:106-108 | filtering commutes with concatenation, so relative order is preserved |
| Export.FilterDropsTransfers | src/index.ts:106-108 | no deposit or withdrawal reaches the filtered rows |
| Export.Arrange | src/index.ts:113-115 | the laid-out cells hold the sorted rows in order; the stock layout is well separated (a separator exactly between rows of different symbols, so by Grouping.GroupByAssetUnique it is the grouping); the crypto layout has no separators |
| Export.ExportRows | src/index.ts:78-115 | fails iff some row's lookup fails; otherwise the exported rows are a sorted permutation of the filtered rows, all of them market orders or dividends; the stock export is well separated and the crypto export has no separators; rows that tie under the comparator keep their input order |

## Left out

- The stream-based CSV reading and writing of src/services/csv.ts; only its row types are modelled. Parsing `Number(...)` of the numeric columns, and the `|| 0` default for an empty quantity, happen before the model: the input row holds the numbers already.
- The network fetch of the rate tables, the HTTP status check, logging and error wrapping in `getRatesForYear` (src/services/nbp.ts:18-30, 37-39): I/O. Only the fill of the table is modelled.
- `main`'s argument handling, `process.exit`, output path, and the concurrent `Promise.all` fetch of the 2023 and 2024 tables (src/index.ts:59-76, 116-118): plumbing and concurrency.
- JavaScript `Date` parsing, `toISOString` formatting and local-time effects of `getDay`/`setDate`: dates are UTC day ordinals, and the rate date is kept as an ordinal rather than a `YYYY-MM-DD` text.
- IEEE-754 floating point: amounts are exact reals, so products and rounding have no binary error. Negative zero and infinities are not represented. `String(number)` is the opaque parameter `show`.
- Ordering.LocaleCompare: locale collation rules are not modelled; symbols compare by character code.
- `NaN` dates in the comparators: order dates are always valid ordinals, so the `NaN` case of the `||` chain does not arise.
- Export types: the export kind is either `stock` or `crypto`. The code tests `type === 'crypto'` (src/index.ts:79) and `type === 'stock'` (src/index.ts:110, 113) separately, so any other value would get non-forced rate dates, the crypto comparator and no grouping. The model covers only the two documented values, because the command-line entry point that reads `type` is not modelled.
