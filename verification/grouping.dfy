/**
 * The stock export's grouping step: an empty row is placed between
 * neighbouring rows whose asset symbols differ.
 */
module Grouping {
  import opened Rows

  /** A cell of the grouped export: a row, or the empty object `{}` that separates groups. */
  datatype Cell = Row(row: ExportRow) | Separator

  /** The number of neighbouring positions whose asset symbols differ. */
  function Breaks(ts: seq<ExportRow>): nat {
    if |ts| < 2 then 0
    else (if ts[0].assetSymbol != ts[1].assetSymbol then 1 else 0) + Breaks(ts[1..])
  }

  /** The rows of `cells` in order, separators dropped. */
  function RowsOf(cells: seq<Cell>): seq<ExportRow> {
    if |cells| == 0 then []
    else (if cells[0].Row? then [cells[0].row] else []) + RowsOf(cells[1..])
  }

  lemma {:induction false} RowsOfAppend(a: seq<Cell>, b: seq<Cell>)
    ensures RowsOf(a + b) == RowsOf(a) + RowsOf(b)
  {
    if |a| == 0 {
      assert a + b == b;
    } else {
      assert (a + b)[0] == a[0];
      assert (a + b)[1..] == a[1..] + b;
      RowsOfAppend(a[1..], b);
    }
  }

  /**
   * A separator at `i` stands between two rows of different symbols (so it is
   * neither first nor last, and has no separator beside it).
   */
  predicate SeparatorFits(cells: seq<Cell>, i: int)
    requires 0 <= i < |cells|
  {
    cells[i].Separator? ==>
      && 0 < i < |cells| - 1
      && cells[i - 1].Row? && cells[i + 1].Row?
      && cells[i - 1].row.assetSymbol != cells[i + 1].row.assetSymbol
  }

  /** Two rows that touch at `i` and `i + 1` share a symbol. */
  predicate RowsJoin(cells: seq<Cell>, i: int)
    requires 0 <= i < |cells| - 1
  {
    cells[i].Row? && cells[i + 1].Row? ==> cells[i].row.assetSymbol == cells[i + 1].row.assetSymbol
  }

  /** Separators exactly where neighbouring symbols change. */
  predicate WellSeparated(cells: seq<Cell>) {
    && (forall i :: 0 <= i < |cells| ==> SeparatorFits(cells, i))
    && (forall i :: 0 <= i < |cells| - 1 ==> RowsJoin(cells, i))
  }

  /**
   * `groupByAsset`: each row in order, followed by a separator when the next
   * row has another symbol; there is one separator per symbol change.
   */
  function GroupByAsset(ts: seq<ExportRow>): (r: seq<Cell>)
    ensures |r| == |ts| + Breaks(ts)
    ensures |ts| > 0 ==> r[0] == Row(ts[0])
  {
    if |ts| == 0 then []
    else if |ts| == 1 then [Row(ts[0])]
    else
      [Row(ts[0])] + (if ts[0].assetSymbol != ts[1].assetSymbol then [Separator] else []) + GroupByAsset(ts[1..])
  }

  /** `GroupByAsset` unfolded once: the first row, a separator if the symbol changes, the rest. */
  lemma GroupUnfold(ts: seq<ExportRow>)
    requires |ts| >= 2
    ensures GroupByAsset(ts)
              == [Row(ts[0])] + (if ts[0].assetSymbol != ts[1].assetSymbol then [Separator] else []) + GroupByAsset(ts[1..])
  {
  }

  /** Dropping the separators of the grouping gives the input back. */
  lemma {:induction false} GroupByAssetRows(ts: seq<ExportRow>)
    ensures RowsOf(GroupByAsset(ts)) == ts
  {
    if |ts| == 1 {
      assert RowsOf([Row(ts[0])]) == [ts[0]] + RowsOf([]);
    } else if |ts| >= 2 {
      var head := [Row(ts[0])] + (if ts[0].assetSymbol != ts[1].assetSymbol then [Separator] else []);
      GroupUnfold(ts);
      GroupByAssetRows(ts[1..]);
      RowsOfAppend(head, GroupByAsset(ts[1..]));
      assert RowsOf(head) == [ts[0]] + RowsOf(head[1..]);
      assert ts == [ts[0]] + ts[1..];
    }
  }

  /** Prepending a row, with a separator exactly when the symbols differ, keeps the cells well separated. */
  lemma WellSeparatedPrepend(x: ExportRow, head: seq<Cell>, rest: seq<Cell>)
    requires WellSeparated(rest) && |rest| > 0 && rest[0].Row?
    requires head == [Row(x)] + (if x.assetSymbol != rest[0].row.assetSymbol then [Separator] else [])
    ensures WellSeparated(head + rest)
  {
    var cells := head + rest;
    var n := |head|;
    forall i | 0 <= i < |cells|
      ensures SeparatorFits(cells, i)
    {
      if i >= n {
        assert SeparatorFits(rest, i - n);
        if cells[i].Separator? {
          assert cells[i - 1] == rest[i - n - 1] && cells[i + 1] == rest[i - n + 1];
        }
      }
    }
    forall i | 0 <= i < |cells| - 1
      ensures RowsJoin(cells, i)
    {
      if i >= n {
        assert RowsJoin(rest, i - n);
      }
    }
  }

  /**
   * Separators of the grouping stand only between two rows of different
   * symbols, and rows of different symbols never touch.
   */
  lemma {:induction false} GroupByAssetWellSeparated(ts: seq<ExportRow>)
    ensures WellSeparated(GroupByAsset(ts))
  {
    if |ts| == 1 {
      assert SeparatorFits([Row(ts[0])], 0);
    } else if |ts| >= 2 {
      GroupUnfold(ts);
      GroupByAssetWellSeparated(ts[1..]);
      WellSeparatedPrepend(ts[0], [Row(ts[0])] + (if ts[0].assetSymbol != ts[1].assetSymbol then [Separator] else []), GroupByAsset(ts[1..]));
    }
  }

  /** Cells after a row keep the separation properties. */
  lemma WellSeparatedSuffix(cells: seq<Cell>, k: int)
    requires WellSeparated(cells) && 0 <= k < |cells| && cells[k].Row?
    ensures WellSeparated(cells[k..])
  {
    var suffix := cells[k..];
    forall i | 0 <= i < |suffix|
      ensures SeparatorFits(suffix, i)
    {
      assert SeparatorFits(cells, i + k);
    }
    forall i | 0 <= i < |suffix| - 1
      ensures RowsJoin(suffix, i)
    {
      assert RowsJoin(cells, i + k);
    }
  }

  /** When the second cell is a row, it continues the first row's group. */
  lemma JoinedStep(ts: seq<ExportRow>, cells: seq<Cell>)
    requires RowsOf(cells) == ts && WellSeparated(cells)
    requires |cells| >= 2 && cells[0].Row? && cells[1].Row?
    ensures |ts| >= 2 && ts[0] == cells[0].row && ts[0].assetSymbol == ts[1].assetSymbol
    ensures RowsOf(cells[1..]) == ts[1..] && WellSeparated(cells[1..])
  {
    assert RowsOf(cells) == [cells[0].row] + RowsOf(cells[1..]);
    assert RowsOf(cells[1..]) == [cells[1].row] + RowsOf(cells[2..]);
    assert RowsJoin(cells, 0);
    WellSeparatedSuffix(cells, 1);
  }

  /** When the second cell is a separator, the next row opens a new group. */
  lemma SeparatedStep(ts: seq<ExportRow>, cells: seq<Cell>)
    requires RowsOf(cells) == ts && WellSeparated(cells)
    requires |cells| >= 2 && cells[0].Row? && cells[1].Separator?
    ensures |cells| >= 3 && |ts| >= 2 && ts[0] == cells[0].row && ts[0].assetSymbol != ts[1].assetSymbol
    ensures RowsOf(cells[2..]) == ts[1..] && WellSeparated(cells[2..])
  {
    assert SeparatorFits(cells, 1);
    var tail := cells[2..];
    assert RowsOf(cells) == [cells[0].row] + RowsOf(cells[1..]);
    assert cells[1..][1..] == tail;
    assert RowsOf(cells[1..]) == RowsOf(tail);
    assert RowsOf(tail) == [tail[0].row] + RowsOf(tail[1..]);
    WellSeparatedSuffix(cells, 2);
  }

  /**
   * The grouping is the only arrangement of `ts` with those properties: any
   * cells that hold the rows of `ts` in order and are well separated are
   * exactly `GroupByAsset(ts)`.
   */
  lemma {:induction false} GroupByAssetUnique(ts: seq<ExportRow>, cells: seq<Cell>)
    requires RowsOf(cells) == ts && WellSeparated(cells)
    ensures cells == GroupByAsset(ts)
    decreases |cells|
  {
    if |cells| == 0 {
      return;
    }
    assert SeparatorFits(cells, 0);
    if |cells| == 1 {
      assert RowsOf(cells) == [cells[0].row] + RowsOf([]);
      return;
    }
    if cells[1].Row? {
      JoinedStep(ts, cells);
      GroupByAssetUnique(ts[1..], cells[1..]);
      GroupUnfold(ts);
      assert cells == [cells[0]] + cells[1..];
    } else {
      SeparatedStep(ts, cells);
      GroupByAssetUnique(ts[1..], cells[2..]);
      GroupUnfold(ts);
      assert cells == [cells[0], cells[1]] + cells[2..];
    }
  }
}
