/**
 * The row records read from and written to the brokerage CSV files,
 * and the number type their amounts live in.
 */
module Rows {

  /** A calendar day, counted in days since 1970-01-01 (UTC). */
  type Date = int

  /** The `Type` column of an export row. */
  datatype TxType = MarketOrder | Deposit | Dividend | Withdrawal

  /** The `Side` column; `NoSide` is the empty string used by dividends and transfers. */
  datatype Side = Buy | Sell | NoSide

  /** The two market currencies the converter supports. */
  datatype Currency = EUR | USD

  /** The `type` command-line argument: which export is being produced. */
  datatype ExportKind = Stock | Crypto

  /**
   * A JavaScript number, without IEEE-754 rounding: either a finite value or
   * `NaN`, which is what arithmetic on `undefined` yields.
   */
  datatype Num = Fin(v: real) | NaN

  /**
   * One input row. The numeric columns are held as the numbers `Number(...)`
   * makes of them; the other columns are passed through untouched.
   */
  datatype CsvRow = CsvRow(
    date: Date,
    assetTitle: string,
    assetSymbol: string,
    txType: TxType,
    side: Side,
    quantity: Num,
    marketCurrency: Currency,
    price: string,
    amount: Num,
    userCurrency: string,
    fxRate: string,
    amountInUserCurrency: string,
    fee: Num,
    withholdingTax: Num)

  /** One output row; amounts are already rendered with a decimal comma. */
  datatype ExportRow = ExportRow(
    orderDate: Date,
    rateDate: Date,
    assetTitle: string,
    assetSymbol: string,
    txType: TxType,
    side: Side,
    quantity: string,
    price: string,
    marketCurrency: Currency,
    feeCurrency: Currency,
    rateForSettlement: string,
    rateForFee: string,
    valueInPln: string,
    feeInPln: string,
    withholdingTaxInPln: string)
}
