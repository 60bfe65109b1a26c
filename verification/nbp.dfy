/**
 * The per-currency tables of mid rates published by the central bank:
 * filling a table from the list of (effective date, mid) pairs the rate
 * source returns, and looking a rate up with a single holiday fallback.
 */
module Nbp {
  import opened Results
  import opened Rows
  import opened Dates

  /** One published rate: the mid rate in PLN effective on `effectiveDate`. */
  datatype RatePoint = RatePoint(effectiveDate: Date, mid: real)

  /** The process-wide EUR and USD tables, keyed by effective date. */
  datatype RateTables = RateTables(eur: map<Date, real>, usd: map<Date, real>) {
    /** The table consulted for currency `c`. */
    function Of(c: Currency): map<Date, real> {
      if c == USD then usd else eur
    }
  }

  /** The error `getRate` throws when asked before any rates were loaded. */
  datatype RateError = RatesNotLoaded

  /**
   * Reference definition: the mid of the last point in `points` dated `date`,
   * or `None` when no point carries that date.
   */
  function LastMid(points: seq<RatePoint>, date: Date): (r: Option<real>)
    ensures r.None? <==> forall i :: 0 <= i < |points| ==> points[i].effectiveDate != date
  {
    if |points| == 0 then None
    else if points[|points| - 1].effectiveDate == date then Some(points[|points| - 1].mid)
    else LastMid(points[..|points| - 1], date)
  }

  /**
   * `LastMid` finds a point dated `date` that no later point overrides, and
   * every such point is the one it finds.
   */
  lemma {:induction false} LastMidIsLastPoint(points: seq<RatePoint>, date: Date, i: int)
    requires 0 <= i < |points| && points[i].effectiveDate == date
    requires forall j :: i < j < |points| ==> points[j].effectiveDate != date
    ensures LastMid(points, date) == Some(points[i].mid)
  {
    if i < |points| - 1 {
      LastMidIsLastPoint(points[..|points| - 1], date, i);
    }
  }

  /**
   * The `forEach` that stores each point of a response in `rates`, in list
   * order: every listed date becomes a key holding the mid of its last point,
   * and every other key keeps its previous value.
   */
  function Fill(rates: map<Date, real>, points: seq<RatePoint>): (r: map<Date, real>)
    ensures forall d :: d in r <==> d in rates || LastMid(points, d).Some?
    ensures forall d :: d in r && LastMid(points, d).Some? ==> r[d] == LastMid(points, d).value
    ensures forall d :: d in r && LastMid(points, d).None? ==> r[d] == rates[d]
  {
    if |points| == 0 then rates
    else
      var last := points[|points| - 1];
      Fill(rates, points[..|points| - 1])[last.effectiveDate := last.mid]
  }

  /** Every date of the response is present after filling. */
  lemma FillContainsListedDates(rates: map<Date, real>, points: seq<RatePoint>)
    ensures forall i :: 0 <= i < |points| ==> points[i].effectiveDate in Fill(rates, points)
  {
    forall i | 0 <= i < |points|
      ensures points[i].effectiveDate in Fill(rates, points)
    {
      assert LastMid(points, points[i].effectiveDate).Some?;
    }
  }

  /** Storing the same response twice leaves the table as storing it once. */
  lemma FillIdempotent(rates: map<Date, real>, points: seq<RatePoint>)
    ensures Fill(Fill(rates, points), points) == Fill(rates, points)
  {
    var once := Fill(rates, points);
    var twice := Fill(once, points);
    assert forall d :: d in twice <==> d in once;
    assert twice.Keys == once.Keys;
    forall d | d in twice
      ensures twice[d] == once[d]
    {
    }
  }

  /** Loading a response for currency `c` touches only that currency's table. */
  function LoadRates(tables: RateTables, c: Currency, points: seq<RatePoint>): (r: RateTables)
    ensures r.Of(c) == Fill(tables.Of(c), points)
    ensures forall other :: other != c ==> r.Of(other) == tables.Of(other)
  {
    if c == USD then tables.(usd := Fill(tables.usd, points))
    else tables.(eur := Fill(tables.eur, points))
  }

  /**
   * `getRate`: throws when the currency's table is empty; otherwise the rate
   * of `date`, or failing that of `DateWithOffset(date, -1)` (the previous
   * business day), or `undefined` (`None`) when both are missing.
   */
  function GetRate(tables: RateTables, c: Currency, date: Date): (r: Result<Option<real>, RateError>)
    ensures r.Failure? <==> |tables.Of(c)| == 0
    ensures r.Success? && date in tables.Of(c) ==> r.value == Some(tables.Of(c)[date])
    ensures r.Success? && date !in tables.Of(c) && DateWithOffset(date, -1) in tables.Of(c) ==> r.value == Some(tables.Of(c)[DateWithOffset(date, -1)])
    ensures r == Success(None) <==> |tables.Of(c)| > 0 && date !in tables.Of(c) && DateWithOffset(date, -1) !in tables.Of(c)
  {
    var rates := tables.Of(c);
    if |rates| == 0 then Failure(RatesNotLoaded)
    else if date in rates then Success(Some(rates[date]))
    else
      var previous := DateWithOffset(date, -1);
      if previous in rates then Success(Some(rates[previous])) else Success(None)
  }

  /** An empty table fails every lookup. */
  lemma GetRateEmptyFails(tables: RateTables, c: Currency, date: Date)
    requires tables.Of(c) == map[]
    ensures GetRate(tables, c, date) == Failure(RatesNotLoaded)
  {
  }

  /** A lookup reads only the table of the requested currency. */
  lemma GetRateReadsOnlyItsTable(t1: RateTables, t2: RateTables, c: Currency, date: Date)
    requires t1.Of(c) == t2.Of(c)
    ensures GetRate(t1, c, date) == GetRate(t2, c, date)
  {
  }

  /** A Monday without a rate falls back to the preceding Friday, never to Sunday. */
  lemma GetRateMondayFallsBackToFriday(tables: RateTables, c: Currency, date: Date)
    requires Weekday(date) == 1 && date !in tables.Of(c) && date - 3 in tables.Of(c)
    ensures GetRate(tables, c, date) == Success(Some(tables.Of(c)[date - 3]))
  {
  }

  /**
   * There is one fallback step only: with rates for Tuesday 2024-12-24 but not
   * for the holidays 2024-12-25 and 2024-12-26, a lookup on 2024-12-26 yields
   * `undefined` although an earlier rate exists.
   */
  lemma GetRateTwoDayGapIsUndefined(tables: RateTables, c: Currency)
    requires DaysFromCivil(2024, 12, 24) in tables.Of(c)
    requires DaysFromCivil(2024, 12, 25) !in tables.Of(c) && DaysFromCivil(2024, 12, 26) !in tables.Of(c)
    ensures GetRate(tables, c, DaysFromCivil(2024, 12, 26)) == Success(None)
  {
  }
}
