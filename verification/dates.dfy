/**
 * Settlement-date resolution: calendar offsets with a roll-back from the
 * weekend to the preceding Friday, and the choice of offset by market
 * currency, trade date and the "day before" override used for fees and crypto.
 */
module Dates {
  import opened Rows

  const Sunday := 0
  const Saturday := 6

  /** Milliseconds in one day, the unit of `Date.getTime()` differences. */
  const MsPerDay := 86400000

  /** Day of the week of `d`, 0 = Sunday .. 6 = Saturday (1970-01-01 was a Thursday). */
  function Weekday(d: Date): int {
    (d + 4) % 7
  }

  predicate IsBusinessDay(d: Date) {
    Weekday(d) != Sunday && Weekday(d) != Saturday
  }

  /** Day ordinal of the proleptic Gregorian date `y`-`m`-`d`. */
  function DaysFromCivil(y: int, m: int, d: int): Date
    requires 1 <= m <= 12 && 1 <= d <= 31
  {
    var y' := if m <= 2 then y - 1 else y;
    var era := y' / 400;
    var yoe := y' - era * 400;
    var mp := if m > 2 then m - 3 else m + 9;
    var doy := (153 * mp + 2) / 5 + d - 1;
    var doe := yoe * 365 + yoe / 4 - yoe / 100 + doy;
    era * 146097 + doe - 719468
  }

  /** First trade date settled T+1 in the US market: 2024-05-28. */
  const UsT1Start: Date := DaysFromCivil(2024, 5, 28)

  /**
   * `date` moved by `offset` calendar days; a Saturday is moved back one day
   * and a Sunday two, so the result is the latest business day on or before
   * `date + offset`.
   */
  function DateWithOffset(date: Date, offset: int): (r: Date)
    ensures IsBusinessDay(r)
    ensures date + offset - 2 <= r <= date + offset
    ensures forall x :: r < x <= date + offset ==> !IsBusinessDay(x)
  {
    var shifted := date + offset;
    if Weekday(shifted) == Sunday then shifted - 2
    else if Weekday(shifted) == Saturday then shifted - 1
    else shifted
  }

  /** The weekday of the shifted day alone decides how far back the result lies. */
  lemma DateWithOffsetByWeekday(date: Date, offset: int)
    ensures Weekday(date + offset) == Saturday ==> DateWithOffset(date, offset) == date + offset - 1
    ensures Weekday(date + offset) == Sunday ==> DateWithOffset(date, offset) == date + offset - 2
    ensures IsBusinessDay(date + offset) ==> DateWithOffset(date, offset) == date + offset
  {
  }

  /**
   * `DateWithOffset` agrees with the reference reading "the latest business
   * day not after `date + offset`": any day with that description is the result.
   */
  lemma DateWithOffsetIsLatestBusinessDay(date: Date, offset: int, b: Date)
    requires IsBusinessDay(b) && b <= date + offset
    requires forall x :: b < x <= date + offset ==> !IsBusinessDay(x)
    ensures b == DateWithOffset(date, offset)
  {
  }

  /** A resolved date is a fixed point of a zero offset. */
  lemma DateWithOffsetIdempotent(date: Date, offset: int)
    ensures DateWithOffset(DateWithOffset(date, offset), 0) == DateWithOffset(date, offset)
  {
  }

  /**
   * The date whose rate converts `item`: one day before the transaction when
   * `forceDayBefore` (fees and crypto); otherwise one day after for EUR
   * trades and for USD trades before the T+1 switch (T+2 settlement), and the
   * transaction day itself for USD trades from the switch on (T+1).
   */
  function EffectiveDate(item: CsvRow, forceDayBefore: bool): (r: Date)
    ensures forceDayBefore ==> r == DateWithOffset(item.date, -1)
    ensures !forceDayBefore && item.marketCurrency == EUR ==> r == DateWithOffset(item.date, 1)
    ensures !forceDayBefore && item.marketCurrency == USD && item.date < UsT1Start ==> r == DateWithOffset(item.date, 1)
    ensures !forceDayBefore && item.marketCurrency == USD && item.date >= UsT1Start ==> r == DateWithOffset(item.date, 0)
    ensures item.date - 3 <= r <= item.date + 1
  {
    var beforeUsChange := item.date < UsT1Start;
    var diff := if forceDayBefore then -1
                else if item.marketCurrency != USD || beforeUsChange then 1
                else 0;
    DateWithOffset(item.date, diff)
  }

  /**
   * The T+2 to T+1 boundary: a USD trade on Monday 2024-05-27 takes the next
   * day's rate, one on Tuesday 2024-05-28 its own day's; both land on 2024-05-28.
   */
  lemma UsSettlementBoundary(item: CsvRow)
    requires item.marketCurrency == USD
    ensures item.date == DaysFromCivil(2024, 5, 27) ==> EffectiveDate(item, false) == DateWithOffset(item.date, 1) == DaysFromCivil(2024, 5, 28)
    ensures item.date == DaysFromCivil(2024, 5, 28) ==> EffectiveDate(item, false) == item.date == DaysFromCivil(2024, 5, 28)
  {
  }

  /** A fee on a Monday is converted at the preceding Friday's date. */
  lemma DayBeforeMondayIsFriday(item: CsvRow)
    requires Weekday(item.date) == 1
    ensures EffectiveDate(item, true) == item.date - 3
  {
  }
}
