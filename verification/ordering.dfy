/**
 * The sort keys and comparators of the two exports, and the sort that
 * applies them.
 */
module Ordering {
  import opened Rows
  import Dates

  /**
   * Rank of a row's `Type`: market orders first, then dividends, deposits,
   * withdrawals; the two taxable types rank before the two transfers.
   */
  function TypeScore(t: TxType): (r: int)
    ensures 1 <= r <= 4
    ensures r == 1 <==> t == MarketOrder
    ensures r <= 2 <==> t == MarketOrder || t == Dividend
  {
    match t
    case MarketOrder => 1
    case Dividend => 2
    case Deposit => 3
    case Withdrawal => 4
  }

  /** Rank of a row's `Side`: buys before side-less rows before sells. */
  function SideScore(s: Side): (r: int)
    ensures -1 <= r <= 1
    ensures r < 0 <==> s == Buy
    ensures r > 0 <==> s == Sell
  {
    match s
    case Buy => -1
    case NoSide => 0
    case Sell => 1
  }

  /** Distinct types and sides have distinct ranks. */
  lemma ScoresInjective(t1: TxType, t2: TxType, s1: Side, s2: Side)
    ensures TypeScore(t1) == TypeScore(t2) <==> t1 == t2
    ensures SideScore(s1) == SideScore(s2) <==> s1 == s2
  {
  }

  /** `localeCompare`, taken as plain lexicographic order on characters: -1, 0 or 1. */
  function LocaleCompare(a: string, b: string): (r: int)
    ensures -1 <= r <= 1
    ensures r == 0 <==> a == b
  {
    if |a| == 0 && |b| == 0 then 0
    else if |a| == 0 then -1
    else if |b| == 0 then 1
    else if a[0] < b[0] then -1
    else if a[0] > b[0] then 1
    else
      assert a == [a[0]] + a[1..] && b == [b[0]] + b[1..];
      LocaleCompare(a[1..], b[1..])
  }

  /** Swapping the operands of `LocaleCompare` flips its sign. */
  lemma {:induction false} LocaleCompareAntisymmetric(a: string, b: string)
    ensures LocaleCompare(b, a) == -LocaleCompare(a, b)
  {
    if |a| > 0 && |b| > 0 && a[0] == b[0] {
      LocaleCompareAntisymmetric(a[1..], b[1..]);
    }
  }

  /** `LocaleCompare` is a transitive order. */
  lemma {:induction false} LocaleCompareTransitive(a: string, b: string, c: string)
    requires LocaleCompare(a, b) < 0 && LocaleCompare(b, c) < 0
    ensures LocaleCompare(a, c) < 0
  {
    if |a| > 0 && |b| > 0 && |c| > 0 && a[0] == b[0] == c[0] {
      LocaleCompareTransitive(a[1..], b[1..], c[1..]);
    }
  }

  /** JavaScript `x || y` on numbers: the first operand unless it is 0. */
  function Or(x: int, y: int): int {
    if x != 0 then x else y
  }

  /** `new Date(a).getTime() - new Date(b).getTime()` for two order dates. */
  function DateDiff(a: Date, b: Date): int {
    (a - b) * Dates.MsPerDay
  }

  /** Reference order: type rank, then side rank, then order date, each strictly. */
  predicate CryptoBefore(a: ExportRow, b: ExportRow) {
    || TypeScore(a.txType) < TypeScore(b.txType)
    || (a.txType == b.txType && SideScore(a.side) < SideScore(b.side))
    || (a.txType == b.txType && a.side == b.side && a.orderDate < b.orderDate)
  }

  /** Reference order: symbol first, then the crypto order among rows of one symbol. */
  predicate StockBefore(a: ExportRow, b: ExportRow) {
    || LocaleCompare(a.assetSymbol, b.assetSymbol) < 0
    || (a.assetSymbol == b.assetSymbol && CryptoBefore(a, b))
  }

  /**
   * `sortCryptoTransactions`: by type rank, then side rank, then order date.
   * It ties exactly on equal type, side and date, and is negative exactly when
   * the reference order puts `a` first.
   */
  function CryptoCompare(a: ExportRow, b: ExportRow): (r: int)
    ensures r == 0 <==> a.txType == b.txType && a.side == b.side && a.orderDate == b.orderDate
    ensures r < 0 <==> CryptoBefore(a, b)
  {
    ScoresInjective(a.txType, b.txType, a.side, b.side);
    Or(TypeScore(a.txType) - TypeScore(b.txType),
       Or(SideScore(a.side) - SideScore(b.side),
          DateDiff(a.orderDate, b.orderDate)))
  }

  /**
   * `sortStockTransactions`: by asset symbol, then as the crypto comparator.
   * It ties exactly on equal symbol, type, side and date, and is negative
   * exactly when the reference order puts `a` first.
   */
  function StockCompare(a: ExportRow, b: ExportRow): (r: int)
    ensures r == 0 <==> a.assetSymbol == b.assetSymbol && a.txType == b.txType && a.side == b.side && a.orderDate == b.orderDate
    ensures r < 0 <==> StockBefore(a, b)
  {
    Or(LocaleCompare(a.assetSymbol, b.assetSymbol), CryptoCompare(a, b))
  }

  /** The comparator the export of `kind` sorts with. */
  function Compare(kind: ExportKind, a: ExportRow, b: ExportRow): int {
    if kind == Stock then StockCompare(a, b) else CryptoCompare(a, b)
  }

  /** Swapping the operands of the crypto comparator flips its sign. */
  lemma CryptoCompareAntisymmetric(a: ExportRow, b: ExportRow)
    ensures CryptoCompare(a, a) == 0
    ensures CryptoCompare(b, a) < 0 <==> CryptoCompare(a, b) > 0
    ensures CryptoCompare(b, a) == 0 <==> CryptoCompare(a, b) == 0
  {
  }

  /** The crypto comparator orders transitively. */
  lemma CryptoCompareTransitive(a: ExportRow, b: ExportRow, c: ExportRow)
    requires CryptoCompare(a, b) <= 0 && CryptoCompare(b, c) <= 0
    ensures CryptoCompare(a, c) <= 0
  {
  }

  /** Swapping the operands of the stock comparator flips its sign. */
  lemma StockCompareAntisymmetric(a: ExportRow, b: ExportRow)
    ensures StockCompare(a, a) == 0
    ensures StockCompare(b, a) < 0 <==> StockCompare(a, b) > 0
    ensures StockCompare(b, a) == 0 <==> StockCompare(a, b) == 0
  {
    LocaleCompareAntisymmetric(a.assetSymbol, b.assetSymbol);
    CryptoCompareAntisymmetric(a, b);
  }

  /** The stock comparator orders transitively. */
  lemma StockCompareTransitive(a: ExportRow, b: ExportRow, c: ExportRow)
    requires StockCompare(a, b) <= 0 && StockCompare(b, c) <= 0
    ensures StockCompare(a, c) <= 0
  {
    LocaleCompareAntisymmetric(a.assetSymbol, c.assetSymbol);
    if LocaleCompare(a.assetSymbol, b.assetSymbol) < 0 && LocaleCompare(b.assetSymbol, c.assetSymbol) < 0 {
      LocaleCompareTransitive(a.assetSymbol, b.assetSymbol, c.assetSymbol);
    } else if a.assetSymbol == b.assetSymbol == c.assetSymbol {
      CryptoCompareTransitive(a, b, c);
    }
  }

  /** Adjacent rows never descend under the comparator of `kind`. */
  predicate Sorted(kind: ExportKind, s: seq<ExportRow>) {
    forall i :: 0 <= i < |s| - 1 ==> Compare(kind, s[i], s[i + 1]) <= 0
  }

  /** A row that precedes the head of a sorted sequence can be put in front of it. */
  lemma SortedCons(kind: ExportKind, x: ExportRow, s: seq<ExportRow>)
    requires Sorted(kind, s) && (|s| > 0 ==> Compare(kind, x, s[0]) <= 0)
    ensures Sorted(kind, [x] + s)
  {
    var r := [x] + s;
    forall i | 0 <= i < |r| - 1
      ensures Compare(kind, r[i], r[i + 1]) <= 0
    {
      if i > 0 {
        assert r[i] == s[i - 1] && r[i + 1] == s[i];
      }
    }
  }

  /** A row that does not strictly precede another comes after it or ties. */
  lemma CompareFlip(kind: ExportKind, a: ExportRow, b: ExportRow)
    requires Compare(kind, a, b) >= 0
    ensures Compare(kind, b, a) <= 0
  {
    StockCompareAntisymmetric(a, b);
    CryptoCompareAntisymmetric(a, b);
  }

  /**
   * Inserts `x` into the sorted `s` ahead of the first row it strictly
   * precedes, so that it follows every row it ties with.
   */
  function Insert(kind: ExportKind, x: ExportRow, s: seq<ExportRow>): (r: seq<ExportRow>)
    requires Sorted(kind, s)
    ensures Sorted(kind, r)
    ensures multiset(r) == multiset(s) + multiset{x}
    ensures |r| == |s| + 1 && (r[0] == x || (|s| > 0 && r[0] == s[0]))
  {
    if |s| == 0 then [x]
    else if Compare(kind, x, s[0]) < 0 then
      SortedCons(kind, x, s);
      [x] + s
    else
      CompareFlip(kind, x, s[0]);
      var rest := Insert(kind, x, s[1..]);
      SortedCons(kind, s[0], rest);
      assert s == [s[0]] + s[1..];
      [s[0]] + rest
  }

  /**
   * `Array.prototype.sort` with the comparator of `kind`, as an insertion sort
   * that takes the rows in order: the result is sorted and holds the same rows.
   */
  function Sort(kind: ExportKind, s: seq<ExportRow>): (r: seq<ExportRow>)
    ensures Sorted(kind, r)
    ensures multiset(r) == multiset(s)
  {
    if |s| == 0 then []
    else
      assert s == s[..|s| - 1] + [s[|s| - 1]];
      Insert(kind, s[|s| - 1], Sort(kind, s[..|s| - 1]))
  }

  /** In a sorted sequence every row precedes every later row, not only its neighbour. */
  lemma {:induction false} SortedPairwise(kind: ExportKind, s: seq<ExportRow>, i: int, j: int)
    requires Sorted(kind, s) && 0 <= i < j < |s|
    ensures Compare(kind, s[i], s[j]) <= 0
    decreases j - i
  {
    if i + 1 < j {
      SortedPairwise(kind, s, i + 1, j);
      if kind == Stock {
        StockCompareTransitive(s[i], s[i + 1], s[j]);
      } else {
        CryptoCompareTransitive(s[i], s[i + 1], s[j]);
      }
    }
  }

  /**
   * After the stock sort the rows of one asset symbol form a single run, so
   * the separators of the grouping step split the export by symbol.
   */
  lemma SortedStockSymbolsContiguous(s: seq<ExportRow>, i: int, j: int, k: int)
    requires Sorted(Stock, s) && 0 <= i < j < k < |s|
    requires s[i].assetSymbol == s[k].assetSymbol
    ensures s[j].assetSymbol == s[i].assetSymbol
  {
    SortedPairwise(Stock, s, i, j);
    SortedPairwise(Stock, s, j, k);
    LocaleCompareAntisymmetric(s[i].assetSymbol, s[j].assetSymbol);
  }

  /** The rows of `s` that tie with `k` under the comparator of `kind`, in their order in `s`. */
  function Ties(kind: ExportKind, s: seq<ExportRow>, k: ExportRow): seq<ExportRow> {
    if |s| == 0 then []
    else (if Compare(kind, s[0], k) == 0 then [s[0]] else []) + Ties(kind, s[1..], k)
  }

  lemma {:induction false} TiesAppend(kind: ExportKind, a: seq<ExportRow>, b: seq<ExportRow>, k: ExportRow)
    ensures Ties(kind, a + b, k) == Ties(kind, a, k) + Ties(kind, b, k)
  {
    if |a| == 0 {
      assert a + b == b;
    } else {
      assert (a + b)[0] == a[0];
      assert (a + b)[1..] == a[1..] + b;
      TiesAppend(kind, a[1..], b, k);
    }
  }

  /** Strictly before, then not after, is strictly before. */
  lemma StrictThenWeak(kind: ExportKind, a: ExportRow, b: ExportRow, c: ExportRow)
    requires Compare(kind, a, b) < 0 && Compare(kind, b, c) <= 0
    ensures Compare(kind, a, c) < 0
  {
    if kind == Stock {
      StockCompareTransitive(a, b, c);
      StockCompareAntisymmetric(b, c);
    } else {
      CryptoCompareTransitive(a, b, c);
      CryptoCompareAntisymmetric(b, c);
    }
  }

  /** A row strictly before every row of `t` ties with none of them, so no row of `t` ties with a row `x` ties with. */
  lemma {:induction false} NoTiesAfter(kind: ExportKind, x: ExportRow, t: seq<ExportRow>, k: ExportRow)
    requires Compare(kind, x, k) == 0
    requires forall j :: 0 <= j < |t| ==> Compare(kind, x, t[j]) < 0
    ensures Ties(kind, t, k) == []
  {
    if |t| > 0 {
      assert Compare(kind, x, t[0]) < 0;
      NoTiesAfter(kind, x, t[1..], k);
    }
  }

  /** A row put in front of the rows it strictly precedes may trade places with their ties, of which there are none. */
  lemma TiesInFront(kind: ExportKind, x: ExportRow, s: seq<ExportRow>, k: ExportRow)
    requires Sorted(kind, s) && |s| > 0 && Compare(kind, x, s[0]) < 0
    ensures Ties(kind, [x] + s, k) == Ties(kind, s, k) + Ties(kind, [x], k)
  {
    TiesAppend(kind, [x], s, k);
    if Compare(kind, x, k) == 0 {
      forall j | 0 <= j < |s|
        ensures Compare(kind, x, s[j]) < 0
      {
        if j > 0 {
          SortedPairwise(kind, s, 0, j);
          StrictThenWeak(kind, x, s[0], s[j]);
        }
      }
      NoTiesAfter(kind, x, s, k);
    }
  }

  /** Keeping the head in front and inserting behind it adds the ties of `x` at the end. */
  lemma TiesBehindHead(kind: ExportKind, x: ExportRow, s: seq<ExportRow>, rest: seq<ExportRow>, k: ExportRow)
    requires |s| > 0
    requires Ties(kind, rest, k) == Ties(kind, s[1..], k) + Ties(kind, [x], k)
    ensures Ties(kind, [s[0]] + rest, k) == Ties(kind, s, k) + Ties(kind, [x], k)
  {
    TiesAppend(kind, [s[0]], rest, k);
    TiesAppend(kind, [s[0]], s[1..], k);
    assert s == [s[0]] + s[1..];
  }

  /** Inserting `x` puts it after every row of `s` that ties with it. */
  lemma {:induction false} InsertTies(kind: ExportKind, x: ExportRow, s: seq<ExportRow>, k: ExportRow)
    requires Sorted(kind, s)
    ensures Ties(kind, Insert(kind, x, s), k) == Ties(kind, s, k) + Ties(kind, [x], k)
  {
    if |s| == 0 {
    } else if Compare(kind, x, s[0]) < 0 {
      assert Insert(kind, x, s) == [x] + s;
      TiesInFront(kind, x, s, k);
    } else {
      var rest := Insert(kind, x, s[1..]);
      assert Insert(kind, x, s) == [s[0]] + rest;
      InsertTies(kind, x, s[1..], k);
      TiesBehindHead(kind, x, s, rest, k);
    }
  }

  /**
   * The sort is stable: the rows that tie with any given row appear in the
   * output in the order they had in the input.
   */
  lemma {:induction false} SortStable(kind: ExportKind, s: seq<ExportRow>, k: ExportRow)
    ensures Ties(kind, Sort(kind, s), k) == Ties(kind, s, k)
  {
    if |s| > 0 {
      var init, last := s[..|s| - 1], s[|s| - 1];
      SortStable(kind, init, k);
      InsertTies(kind, last, Sort(kind, init), k);
      assert s == init + [last];
      TiesAppend(kind, init, [last], k);
    }
  }
}
