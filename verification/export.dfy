/**
 * The export pipeline: each input row is converted at its resolved rates
 * and rendered, the rows that matter for tax are kept, sorted, and (for the
 * stock export) grouped by asset symbol.
 */
module Export {
  import opened Results
  import opened Rows
  import opened Dates
  import opened Nbp
  import opened Amounts
  import opened Ordering
  import opened Grouping

  /** A looked-up rate in arithmetic: `undefined` turns every product into `NaN`. */
  function RateNum(rate: Option<real>): Num {
    if rate.Some? then Fin(rate.value) else NaN
  }

  /** `formatAmount` of a rate; `String(undefined)` is the text "undefined". */
  function ShowRate(show: real -> string, rate: Option<real>): (r: string)
    ensures rate.None? ==> r == "undefined"
    ensures rate.Some? ==> r == FormatAmount(Show(show, Fin(rate.value)))
  {
    FormatAmount(if rate.Some? then show(rate.value) else "undefined")
  }

  /** Sells leave the holding, so their quantity is negated. */
  function QuantityMultiplier(side: Side): (r: real)
    ensures r == 1.0 || r == -1.0
    ensures r < 0.0 <==> side == Sell
  {
    if side == Sell then -1.0 else 1.0
  }

  /** Buys are cash outflows, so their value is negated. */
  function ValueMultiplier(side: Side): (r: real)
    ensures r == 1.0 || r == -1.0
    ensures r < 0.0 <==> side == Buy
  {
    if side == Buy then -1.0 else 1.0
  }

  /** The numbers computed for one row before they are rendered. */
  datatype Converted = Converted(
    effectiveDate: Date,
    feeEffectiveDate: Date,
    rate: Option<real>,
    feeRate: Option<real>,
    quantity: Num,
    value: Num,
    fee: Num,
    withholdingTax: Num)

  /**
   * The amounts of one row at the given rates: the quantity signed by side,
   * the value and the withholding tax converted at the settlement rate and
   * rounded to cents, the fee converted at the fee rate and rounded.
   */
  function ConvertAt(item: CsvRow, effectiveDate: Date, feeEffectiveDate: Date, rate: Option<real>, feeRate: Option<real>): (r: Converted)
    ensures r.effectiveDate == effectiveDate && r.feeEffectiveDate == feeEffectiveDate
    ensures r.rate == rate && r.feeRate == feeRate
    ensures r.quantity.NaN? <==> item.quantity.NaN?
    ensures r.value.NaN? <==> item.amount.NaN? || rate.None?
    ensures r.fee.NaN? <==> item.fee.NaN? || feeRate.None?
    ensures r.withholdingTax.NaN? <==> item.withholdingTax.NaN? || rate.None?
  {
    Converted(
      effectiveDate,
      feeEffectiveDate,
      rate,
      feeRate,
      Times(item.quantity, Fin(QuantityMultiplier(item.side))),
      Times(RoundAmount(Times(item.amount, RateNum(rate))), Fin(ValueMultiplier(item.side))),
      RoundAmount(Times(item.fee, RateNum(feeRate))),
      Times(RoundAmount(Times(item.withholdingTax, RateNum(rate))), Fin(-1.0)))
  }

  /**
   * The numeric part of the per-row mapping. The settlement rate comes from
   * the market currency's table at the effective date (the day before for a
   * crypto export); the fee rate always from the EUR table at the day before.
   * A lookup on an empty table throws.
   */
  function Convert(item: CsvRow, kind: ExportKind, tables: RateTables): (r: Result<Converted, RateError>)
    ensures r.Failure? <==> |tables.Of(item.marketCurrency)| == 0 || |tables.eur| == 0
    ensures r.Success? ==> r.value.effectiveDate == EffectiveDate(item, kind == Crypto)
    ensures r.Success? ==> Success(r.value.rate) == GetRate(tables, item.marketCurrency, r.value.effectiveDate)
    ensures r.Success? ==> r.value.feeEffectiveDate == DateWithOffset(item.date, -1)
    ensures r.Success? ==> Success(r.value.feeRate) == GetRate(tables, EUR, r.value.feeEffectiveDate)
    ensures r.Success? ==> r.value == ConvertAt(item, r.value.effectiveDate, r.value.feeEffectiveDate, r.value.rate, r.value.feeRate)
  {
    var effectiveDate := EffectiveDate(item, kind == Crypto);
    var feeEffectiveDate := EffectiveDate(item, true);
    var rate :- GetRate(tables, item.marketCurrency, effectiveDate);
    var feeRate :- GetRate(tables, EUR, feeEffectiveDate);
    Success(ConvertAt(item, effectiveDate, feeEffectiveDate, rate, feeRate))
  }

  /** A non-zero quantity comes out negated exactly for a sell, and unchanged otherwise. */
  lemma QuantityNegatedIffSell(item: CsvRow, d: Date, fd: Date, rate: Option<real>, feeRate: Option<real>, q: real)
    requires item.quantity == Fin(q) && q != 0.0
    ensures ConvertAt(item, d, fd, rate, feeRate).quantity == Fin(-q) <==> item.side == Sell
    ensures item.side != Sell ==> ConvertAt(item, d, fd, rate, feeRate).quantity == Fin(q)
  {
  }

  /**
   * With a known rate the value is the converted amount in whole cents, to
   * within half a cent, negated exactly for a buy.
   */
  lemma ValueNegatedIffBuy(item: CsvRow, d: Date, fd: Date, rate: real, feeRate: Option<real>, a: real)
    requires item.amount == Fin(a)
    ensures ConvertAt(item, d, fd, Some(rate), feeRate).value.Fin?
    ensures var v := ConvertAt(item, d, fd, Some(rate), feeRate).value.v;
      && IsCents(v)
      && (item.side == Buy ==> -(a * rate) - 0.005 <= v < -(a * rate) + 0.005)
      && (item.side != Buy ==> a * rate - 0.005 < v <= a * rate + 0.005)
  {
    var c := RoundCents(a * rate);
    assert Times(item.amount, RateNum(Some(rate))) == Fin(a * rate);
    assert RoundAmount(Fin(a * rate)) == Fin(c);
    assert ConvertAt(item, d, fd, Some(rate), feeRate).value == Fin(c * ValueMultiplier(item.side));
    if item.side == Buy {
      assert c * -1.0 == -c;
      CentsNegated(c);
    } else {
      assert c * 1.0 == c;
    }
  }

  /** The negation of a whole number of cents is one too. */
  lemma CentsNegated(c: real)
    requires IsCents(c)
    ensures IsCents(-c)
  {
    var k := (c * 100.0).Floor;
    assert (-c) * 100.0 == (-k) as real;
  }

  /** Withholding tax is always a deduction: the rounded converted tax, negated. */
  lemma WithholdingTaxNegated(item: CsvRow, d: Date, fd: Date, rate: real, feeRate: Option<real>, w: real)
    requires item.withholdingTax == Fin(w)
    ensures ConvertAt(item, d, fd, Some(rate), feeRate).withholdingTax == Fin(-RoundCents(w * rate))
  {
    var c := RoundCents(w * rate);
    assert Times(item.withholdingTax, RateNum(Some(rate))) == Fin(w * rate);
    assert RoundAmount(Fin(w * rate)) == Fin(c);
    assert c * -1.0 == -c;
  }

  /**
   * The fee does not depend on the export kind, the market currency or the
   * USD table: it is converted at the EUR rate of the day before the trade.
   */
  lemma FeeUsesEurDayBefore(item: CsvRow, tables: RateTables, other: RateTables, c: Currency)
    requires tables.eur == other.eur && |tables.eur| > 0
    requires |tables.Of(item.marketCurrency)| > 0 && |other.Of(c)| > 0
    ensures Convert(item, Stock, tables).Success?
    ensures Convert(item.(marketCurrency := c), Crypto, other).Success?
    ensures Convert(item.(marketCurrency := c), Crypto, other).value.fee == Convert(item, Stock, tables).value.fee
    ensures Convert(item, Stock, tables).value.fee
              == RoundAmount(Times(item.fee, RateNum(GetRate(tables, EUR, DateWithOffset(item.date, -1)).value)))
  {
    GetRateReadsOnlyItsTable(tables, other, EUR, DateWithOffset(item.date, -1));
  }

  /** When no rate is found, every amount converted with it is `NaN`. */
  lemma UndefinedRateGivesNaN(item: CsvRow, d: Date, fd: Date, feeRate: Option<real>)
    ensures ConvertAt(item, d, fd, None, feeRate).value == NaN
    ensures ConvertAt(item, d, fd, None, feeRate).withholdingTax == NaN
  {
  }

  /**
   * A worked row: a USD buy on Monday 2024-06-03 (T+1, so its own day's rate
   * 4.00) of 5 units for 100 with a fee of 1, the EUR rate of the previous
   * Friday being 4.30, gives quantity 5, value -400.00 and fee 4.30.
   */
  lemma WorkedUsdBuy(item: CsvRow, tables: RateTables)
    requires item.marketCurrency == USD && item.side == Buy
    requires item.date == DaysFromCivil(2024, 6, 3)
    requires item.quantity == Fin(5.0) && item.amount == Fin(100.0) && item.fee == Fin(1.0)
    requires tables.usd == map[DaysFromCivil(2024, 6, 3) := 4.0]
    requires tables.eur == map[DaysFromCivil(2024, 5, 31) := 4.3]
    ensures Convert(item, Stock, tables).Success?
    ensures Convert(item, Stock, tables).value.quantity == Fin(5.0)
    ensures Convert(item, Stock, tables).value.value == Fin(-400.0)
    ensures Convert(item, Stock, tables).value.fee == Fin(4.3)
  {
    var day := DaysFromCivil(2024, 6, 3);
    var friday := DaysFromCivil(2024, 5, 31);
    WorkedUsdBuyDates(item);
    assert GetRate(tables, USD, day) == Success(Some(4.0));
    assert GetRate(tables, EUR, friday) == Success(Some(4.3));
    assert Convert(item, Stock, tables) == Success(ConvertAt(item, day, friday, Some(4.0), Some(4.3)));
    WorkedUsdBuyAmounts(item, day, friday);
  }

  /** The dates of the worked row: its own Monday, and the Friday before for the fee. */
  lemma WorkedUsdBuyDates(item: CsvRow)
    requires item.marketCurrency == USD && item.date == DaysFromCivil(2024, 6, 3)
    ensures EffectiveDate(item, false) == DaysFromCivil(2024, 6, 3)
    ensures EffectiveDate(item, true) == DaysFromCivil(2024, 5, 31)
  {
    assert DaysFromCivil(2024, 6, 3) == 19877 && DaysFromCivil(2024, 5, 31) == 19874;
    assert UsT1Start == 19871;
    assert Weekday(19877) == 1 && Weekday(19876) == 0;
  }

  /** The amounts of the worked row at rates 4.00 and 4.30. */
  lemma WorkedUsdBuyAmounts(item: CsvRow, d: Date, fd: Date)
    requires item.side == Buy && item.quantity == Fin(5.0) && item.amount == Fin(100.0) && item.fee == Fin(1.0)
    ensures ConvertAt(item, d, fd, Some(4.0), Some(4.3)).quantity == Fin(5.0)
    ensures ConvertAt(item, d, fd, Some(4.0), Some(4.3)).value == Fin(-400.0)
    ensures ConvertAt(item, d, fd, Some(4.0), Some(4.3)).fee == Fin(4.3)
  {
    assert IsCents(400.0) && IsCents(4.3);
    RoundCentsKeepsCents(400.0);
    RoundCentsKeepsCents(4.3);
    assert RoundAmount(Fin(100.0 * 4.0)) == Fin(400.0);
    assert RoundAmount(Fin(1.0 * 4.3)) == Fin(4.3);
  }

  /**
   * The output columns of one row, amounts written with a decimal comma: the
   * descriptive columns pass through, an `undefined` rate prints as
   * "undefined" and a `NaN` amount as "NaN".
   */
  function Render(item: CsvRow, c: Converted, show: real -> string): (r: ExportRow)
    ensures r.orderDate == item.date && r.rateDate == c.effectiveDate
    ensures r.assetTitle == item.assetTitle && r.assetSymbol == item.assetSymbol
    ensures r.txType == item.txType && r.side == item.side
    ensures r.price == item.price && r.marketCurrency == item.marketCurrency && r.feeCurrency == EUR
    ensures c.rate.None? ==> r.rateForSettlement == "undefined"
    ensures c.feeRate.None? ==> r.rateForFee == "undefined"
    ensures c.value.NaN? ==> r.valueInPln == "NaN"
    ensures c.fee.NaN? ==> r.feeInPln == "NaN"
    ensures c.withholdingTax.NaN? ==> r.withholdingTaxInPln == "NaN"
  {
    ExportRow(
      item.date,
      c.effectiveDate,
      item.assetTitle,
      item.assetSymbol,
      item.txType,
      item.side,
      FormatAmount(Show(show, c.quantity)),
      item.price,
      item.marketCurrency,
      EUR,
      ShowRate(show, c.rate),
      ShowRate(show, c.feeRate),
      FormatAmount(Show(show, c.value)),
      FormatAmount(Show(show, c.fee)),
      FormatAmount(Show(show, c.withholdingTax)))
  }

  /**
   * The per-row mapping: the row keeps its descriptive columns, records the
   * rate date, names EUR as the fee currency, and prints the quantity, rates
   * and amounts that `Convert` computes for it.
   */
  function MapRow(item: CsvRow, kind: ExportKind, tables: RateTables, show: real -> string): (r: Result<ExportRow, RateError>)
    ensures r.Failure? <==> |tables.Of(item.marketCurrency)| == 0 || |tables.eur| == 0
    ensures r.Success? <==> Convert(item, kind, tables).Success?
    ensures r.Success? ==> && r.value.orderDate == item.date
                           && r.value.rateDate == EffectiveDate(item, kind == Crypto)
                           && r.value.assetTitle == item.assetTitle
                           && r.value.assetSymbol == item.assetSymbol
                           && r.value.txType == item.txType
                           && r.value.side == item.side
                           && r.value.price == item.price
                           && r.value.marketCurrency == item.marketCurrency
                           && r.value.feeCurrency == EUR
    ensures r.Success? ==> var c := Convert(item, kind, tables).value;
                           && r.value.quantity == FormatAmount(Show(show, c.quantity))
                           && r.value.rateForSettlement == ShowRate(show, c.rate)
                           && r.value.rateForFee == ShowRate(show, c.feeRate)
                           && r.value.valueInPln == FormatAmount(Show(show, c.value))
                           && r.value.feeInPln == FormatAmount(Show(show, c.fee))
                           && r.value.withholdingTaxInPln == FormatAmount(Show(show, c.withholdingTax))
  {
    var c :- Convert(item, kind, tables);
    Success(Render(item, c, show))
  }

  /** `items.map(f)` where `f` may throw: every item mapped in order, or the first error. */
  function MapOrThrow<A, B, E>(items: seq<A>, f: A -> Result<B, E>): (r: Result<seq<B>, E>)
    ensures r.Success? ==> |r.value| == |items|
    ensures r.Success? ==> forall i :: 0 <= i < |items| ==> f(items[i]) == Success(r.value[i])
    ensures r.Failure? ==> exists i :: 0 <= i < |items| && f(items[i]) == Failure(r.error)
  {
    if |items| == 0 then Success([])
    else
      var head :- f(items[0]);
      var tail :- MapOrThrow(items[1..], f);
      assert forall i :: 1 <= i < |items| ==> items[i] == items[1..][i - 1];
      Success([head] + tail)
  }

  /** The per-row mapping of the whole input, which aborts on the first failing row. */
  function MapAll(items: seq<CsvRow>, kind: ExportKind, tables: RateTables, show: real -> string): Result<seq<ExportRow>, RateError> {
    MapOrThrow(items, (item: CsvRow) => MapRow(item, kind, tables, show))
  }

  /** The tax export keeps market orders and dividends only: the types ranked before the transfers. */
  function KeptForTax(row: ExportRow): (r: bool)
    ensures r <==> TypeScore(row.txType) <= 2
  {
    row.txType == MarketOrder || row.txType == Dividend
  }

  /** The `Type` filter: market orders and dividends, in their original order. */
  function FilterMarket(rows: seq<ExportRow>): (r: seq<ExportRow>)
    ensures |r| <= |rows|
    ensures forall i :: 0 <= i < |r| ==> KeptForTax(r[i])
    ensures forall i :: 0 <= i < |rows| && KeptForTax(rows[i]) ==> rows[i] in r
    ensures multiset(r) <= multiset(rows)
  {
    if |rows| == 0 then []
    else
      assert rows == [rows[0]] + rows[1..];
      (if KeptForTax(rows[0]) then [rows[0]] else []) + FilterMarket(rows[1..])
  }

  /** Filtering commutes with concatenation, so relative order is preserved. */
  lemma {:induction false} FilterMarketAppend(a: seq<ExportRow>, b: seq<ExportRow>)
    ensures FilterMarket(a + b) == FilterMarket(a) + FilterMarket(b)
  {
    if |a| == 0 {
      assert a + b == b;
    } else {
      assert (a + b)[0] == a[0];
      assert (a + b)[1..] == a[1..] + b;
      FilterMarketAppend(a[1..], b);
    }
  }

  /** Deposits and withdrawals never reach the tax export. */
  lemma FilterDropsTransfers(rows: seq<ExportRow>)
    ensures forall i :: 0 <= i < |FilterMarket(rows)| ==> FilterMarket(rows)[i].txType != Deposit
    ensures forall i :: 0 <= i < |FilterMarket(rows)| ==> FilterMarket(rows)[i].txType != Withdrawal
  {
  }

  /** The crypto export: the sorted rows with no separators. */
  function Ungrouped(rows: seq<ExportRow>): (r: seq<Cell>)
    ensures |r| == |rows|
    ensures forall i :: 0 <= i < |r| ==> r[i] == Row(rows[i])
  {
    if |rows| == 0 then [] else [Row(rows[0])] + Ungrouped(rows[1..])
  }

  lemma {:induction false} UngroupedRows(rows: seq<ExportRow>)
    ensures RowsOf(Ungrouped(rows)) == rows
  {
    if |rows| > 0 {
      var r := Ungrouped(rows);
      assert r[0] == Row(rows[0]);
      assert r[1..] == Ungrouped(rows[1..]);
      UngroupedRows(rows[1..]);
      assert rows == [rows[0]] + rows[1..];
    }
  }

  /** The sorted rows laid out for output: grouped by symbol for stocks, plain for crypto. */
  function Arrange(kind: ExportKind, sorted: seq<ExportRow>): (r: seq<Cell>)
    ensures RowsOf(r) == sorted
    ensures kind == Stock ==> WellSeparated(r)
    ensures kind == Crypto ==> forall i :: 0 <= i < |r| ==> r[i].Row?
  {
    if kind == Stock then
      GroupByAssetRows(sorted);
      GroupByAssetWellSeparated(sorted);
      GroupByAsset(sorted)
    else
      UngroupedRows(sorted);
      Ungrouped(sorted)
  }

  /** Sorting the kept rows keeps only kept rows. */
  lemma SortKeepsFiltered(kind: ExportKind, kept: seq<ExportRow>)
    requires forall i :: 0 <= i < |kept| ==> KeptForTax(kept[i])
    ensures forall x :: x in Sort(kind, kept) ==> KeptForTax(x)
  {
    forall x | x in Sort(kind, kept)
      ensures KeptForTax(x)
    {
      assert x in multiset(Sort(kind, kept));
      assert x in kept;
    }
  }

  /**
   * The whole run after the rates are loaded: map every row, keep market
   * orders and dividends, sort with the comparator of `kind`, and group by
   * asset symbol for the stock export. The exported rows are exactly the
   * kept rows, sorted; the crypto export has no separators.
   */
  function ExportRows(items: seq<CsvRow>, kind: ExportKind, tables: RateTables, show: real -> string): (r: Result<seq<Cell>, RateError>)
    ensures r.Failure? <==> MapAll(items, kind, tables, show).Failure?
    ensures r.Success? ==> multiset(RowsOf(r.value)) == multiset(FilterMarket(MapAll(items, kind, tables, show).value))
    ensures r.Success? ==> Sorted(kind, RowsOf(r.value))
    ensures r.Success? ==> forall x :: x in RowsOf(r.value) ==> KeptForTax(x)
    ensures r.Success? && kind == Stock ==> WellSeparated(r.value)
    ensures r.Success? ==> forall k :: Ties(kind, RowsOf(r.value), k) == Ties(kind, FilterMarket(MapAll(items, kind, tables, show).value), k)
    ensures r.Success? && kind == Crypto ==> forall i :: 0 <= i < |r.value| ==> r.value[i].Row?
  {
    var rows :- MapAll(items, kind, tables, show);
    var kept := FilterMarket(rows);
    SortKeepsFiltered(kind, kept);
    forall k {
      SortStable(kind, kept, k);
    }
    Success(Arrange(kind, Sort(kind, kept)))
  }
}
