/** The cells that meet one physical row, from left to right: the columns of the table turned on its diagonal. */
module RowStacks {
  import opened Geometry
  import opened TableGrid
  import opened ColumnStacks

  function TurnedRect(rect: Rect): Rect {
    Rect(rect.column, rect.row, rect.columnSpan, rect.rowSpan)
  }

  /** The cell with rows and columns exchanged. */
  function Turned(cell: Cell): Cell {
    cell.(row := cell.column, column := cell.row, rowSpan := cell.columnSpan, columnSpan := cell.rowSpan)
  }

  function TurnedAll(cells: seq<Cell>): (turned: seq<Cell>)
    ensures |turned| == |cells| && forall i :: 0 <= i < |cells| ==> turned[i] == Turned(cells[i])
  {
    seq(|cells|, i requires 0 <= i < |cells| => Turned(cells[i]))
  }

  predicate MeetsRow(cell: Cell, row: int) { cell.row <= row < cell.row + cell.rowSpan }

  /** `sorted` holds the table's cells that meet the row, each once and none missing, by column. */
  ghost predicate RowInOrder(cells: seq<Cell>, row: int, sorted: seq<Cell>) {
    && (forall k :: 0 <= k < |sorted| ==> sorted[k] in cells && MeetsRow(sorted[k], row))
    && (forall k, l :: 0 <= k < l < |sorted| ==> sorted[k] != sorted[l] && sorted[k].column <= sorted[l].column)
    && (forall c :: c in cells && MeetsRow(c, row) ==> c in sorted)
  }

  /** The cells cover columns 1 to `columns` one after another, without gap or overlap. */
  ghost predicate SideBySide(cells: seq<Cell>, columns: int) {
    && cells != [] && cells[0].column == 1 && cells[|cells| - 1].Rect().Right() == columns
    && forall k :: 0 <= k < |cells| - 1 ==> cells[k + 1].column == cells[k].Rect().Right() + 1
  }

  lemma {:induction false} TurnedTiles(cells: seq<Cell>, rows: nat, columns: nat)
    requires Tiles(Rects(cells), Grid(rows, columns))
    ensures Tiles(Rects(TurnedAll(cells)), Grid(columns, rows))
  {
    var rects, turned := Rects(cells), Rects(TurnedAll(cells));
    assert forall i :: 0 <= i < |rects| ==> turned[i] == TurnedRect(rects[i]);
    forall i | 0 <= i < |turned| ensures turned[i].Proper() && Inside(turned[i], Grid(columns, rows)) {
      assert rects[i].Proper() && Inside(rects[i], Grid(rows, columns));
    }
    forall i, j | 0 <= i < j < |turned| ensures !Intersects(turned[i], turned[j]) {
      assert !Intersects(rects[i], rects[j]);
    }
    forall r, c | Grid(columns, rows).Holds(r, c) ensures exists i :: 0 <= i < |turned| && turned[i].Holds(r, c) {
      assert Grid(rows, columns).Holds(c, r);
      var i :| 0 <= i < |rects| && rects[i].Holds(c, r);
      assert turned[i].Holds(r, c);
    }
  }

  lemma {:induction false} TurnedMember(cells: seq<Cell>, cell: Cell)
    requires cell in cells
    ensures Turned(cell) in TurnedAll(cells)
  {
    var i :| 0 <= i < |cells| && cells[i] == cell;
    assert TurnedAll(cells)[i] == Turned(cell);
  }

  lemma {:induction false} TurnedEntries(cells: seq<Cell>, row: int, sorted: seq<Cell>)
    requires RowInOrder(cells, row, sorted)
    ensures ColumnEntries(TurnedAll(cells), row, TurnedAll(sorted))
  {
    var turned := TurnedAll(sorted);
    forall k | 0 <= k < |turned| ensures turned[k] in TurnedAll(cells) && Meets(turned[k], row) {
      assert MeetsRow(sorted[k], row);
      TurnedMember(cells, sorted[k]);
    }
    forall k, l | 0 <= k < l < |turned| ensures turned[k] != turned[l] {
      assert sorted[k] != sorted[l] && Turned(turned[k]) == sorted[k] && Turned(turned[l]) == sorted[l];
    }
    forall c | c in TurnedAll(cells) && Meets(c, row) ensures c in turned {
      var i :| 0 <= i < |cells| && TurnedAll(cells)[i] == c;
      assert cells[i] in cells && MeetsRow(cells[i], row);
      TurnedMember(sorted, cells[i]);
    }
  }

  lemma {:induction false} TurnedDescends(cells: seq<Cell>, rows: nat, columns: nat, row: int, sorted: seq<Cell>)
    requires Tiles(Rects(cells), Grid(rows, columns)) && RowInOrder(cells, row, sorted)
    ensures Descends(TurnedAll(sorted))
  {
    TurnedTiles(cells, rows, columns);
    TurnedEntries(cells, row, sorted);
    var turned := TurnedAll(sorted);
    forall k, l | 0 <= k < l < |turned| ensures turned[k].Rect().Bottom() < turned[l].row {
      EntriesApart(TurnedAll(cells), row, turned[k], turned[l]);
      assert sorted[k].column <= sorted[l].column;
    }
  }

  /** On an exact cover the cells of a row follow each other without gap from the first column to the last. */
  lemma {:induction false} RowIsSideBySide(cells: seq<Cell>, rows: nat, columns: nat, row: int, sorted: seq<Cell>)
    requires Tiles(Rects(cells), Grid(rows, columns)) && columns >= 1 && 1 <= row <= rows
    requires RowInOrder(cells, row, sorted)
    ensures SideBySide(sorted, columns)
  {
    var all, turned := TurnedAll(cells), TurnedAll(sorted);
    TurnedTiles(cells, rows, columns);
    TurnedEntries(cells, row, sorted);
    TurnedDescends(cells, rows, columns, row, sorted);
    FirstAndLastEntry(all, columns, rows, row, turned);
    forall k | 0 <= k < |sorted| - 1 ensures sorted[k + 1].column == sorted[k].Rect().Right() + 1 {
      NextEntry(all, Grid(columns, rows), row, turned, k);
      assert turned[k + 1] == Turned(sorted[k + 1]) && turned[k] == Turned(sorted[k]);
    }
  }
}
