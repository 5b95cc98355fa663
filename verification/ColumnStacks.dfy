/** The cells that meet one physical column, from top to bottom. */
module ColumnStacks {
  import opened Geometry
  import opened TableGrid
  import opened Regions

  predicate Meets(cell: Cell, column: int) { cell.column <= column < cell.column + cell.columnSpan }

  predicate PositionLess(a: Cell, b: Cell) { a.row < b.row || (a.row == b.row && a.column < b.column) }

  ghost predicate SortedByPosition(cells: seq<Cell>) {
    forall i, j :: 0 <= i < j < |cells| ==> !PositionLess(cells[j], cells[i])
  }

  /** Inserts a cell behind every cell that does not come after it. */
  method InsertByPosition(sorted: seq<Cell>, cell: Cell) returns (result: seq<Cell>)
    requires SortedByPosition(sorted)
    ensures SortedByPosition(result) && multiset(result) == multiset(sorted) + multiset{cell}
  {
    var k := |sorted|;
    while k > 0 && PositionLess(cell, sorted[k - 1])
      invariant 0 <= k <= |sorted|
      invariant forall i :: k <= i < |sorted| ==> PositionLess(cell, sorted[i])
    {
      k := k - 1;
    }
    InsertedSorted(sorted, cell, k);
    result := sorted[..k] + [cell] + sorted[k..];
  }

  lemma {:induction false} InsertedSorted(sorted: seq<Cell>, cell: Cell, k: nat)
    requires SortedByPosition(sorted) && k <= |sorted|
    requires forall i :: k <= i < |sorted| ==> PositionLess(cell, sorted[i])
    requires k > 0 ==> !PositionLess(cell, sorted[k - 1])
    ensures SortedByPosition(sorted[..k] + [cell] + sorted[k..])
    ensures multiset(sorted[..k] + [cell] + sorted[k..]) == multiset(sorted) + multiset{cell}
  {
    assert sorted == sorted[..k] + sorted[k..];
    PlacedSorted(sorted, cell, k);
  }

  lemma {:induction false} PlacedSorted(sorted: seq<Cell>, cell: Cell, k: nat)
    requires SortedByPosition(sorted) && k <= |sorted|
    requires forall i :: k <= i < |sorted| ==> PositionLess(cell, sorted[i])
    requires k > 0 ==> !PositionLess(cell, sorted[k - 1])
    ensures SortedByPosition(sorted[..k] + [cell] + sorted[k..])
  {
    forall i | 0 <= i < k ensures !PositionLess(cell, sorted[i]) {
      assert i < k - 1 ==> !PositionLess(sorted[k - 1], sorted[i]);
    }
    var result := sorted[..k] + [cell] + sorted[k..];
    assert forall i :: 0 <= i < k ==> result[i] == sorted[i];
    assert forall i :: k < i < |result| ==> result[i] == sorted[i - 1];
  }

  /** The column's cells in reading order. The sort is any sort; here by insertion. */
  method ColumnCells(cells: seq<Cell>, column: int) returns (sorted: seq<Cell>)
    ensures SortedByPosition(sorted)
    ensures multiset(sorted) == multiset(Meeting(cells, column))
  {
    sorted := [];
    for index := 0 to |cells|
      invariant SortedByPosition(sorted)
      invariant multiset(sorted) == multiset(Meeting(cells[..index], column))
    {
      assert cells[..index + 1][..index] == cells[..index];
      if Meets(cells[index], column) {
        sorted := InsertByPosition(sorted, cells[index]);
      }
    }
    assert cells[..|cells|] == cells;
  }

  function Meeting(cells: seq<Cell>, column: int): seq<Cell> {
    if cells == [] then []
    else
      var rest, last := Meeting(cells[..|cells| - 1], column), cells[|cells| - 1];
      if Meets(last, column) then rest + [last] else rest
  }

  /** The cells cover rows 1 to `rows` one after another, without gap or overlap. */
  ghost predicate Stacked(cells: seq<Cell>, rows: int) {
    && cells != [] && cells[0].row == 1 && cells[|cells| - 1].Rect().Bottom() == rows
    && forall k :: 0 <= k < |cells| - 1 ==> cells[k + 1].row == cells[k].Rect().Bottom() + 1
  }

  lemma {:induction false} MeetingMembers(cells: seq<Cell>, column: int)
    ensures forall c :: c in Meeting(cells, column) <==> c in cells && Meets(c, column)
  {
    if cells != [] {
      MeetingMembers(cells[..|cells| - 1], column);
      assert cells == cells[..|cells| - 1] + [cells[|cells| - 1]];
    }
  }

  /** Meeting cells are distinct occurrences of the table's cells. */
  lemma {:induction false} MeetingDistinct(cells: seq<Cell>, column: int)
    requires forall i, j :: 0 <= i < j < |cells| ==> cells[i] != cells[j]
    ensures forall c :: c in Meeting(cells, column) ==> multiset(Meeting(cells, column))[c] == 1
  {
    if cells != [] {
      var init, last := cells[..|cells| - 1], cells[|cells| - 1];
      MeetingDistinct(init, column);
      MeetingMembers(init, column);
      assert last !in init;
    }
  }

  lemma {:induction false} DistinctFromMultiset(xs: seq<Cell>, i: nat, j: nat)
    requires i < j < |xs| && xs[i] == xs[j]
    ensures multiset(xs)[xs[i]] >= 2
  {
    assert xs == xs[..i] + [xs[i]] + xs[i + 1..j] + [xs[j]] + xs[j + 1..];
  }

  lemma {:induction false} TilesAreDistinct(cells: seq<Cell>)
    requires AllProper(Rects(cells)) && Disjoint(Rects(cells))
    ensures forall i, j :: 0 <= i < j < |cells| ==> cells[i] != cells[j]
  {
    forall i, j | 0 <= i < j < |cells| ensures cells[i] != cells[j] {
      assert !Intersects(Rects(cells)[i], Rects(cells)[j]) && Rects(cells)[i].Proper();
    }
  }

  /** What the sorted column's entries are: table cells that meet the column, no two the same, none missing. */
  ghost predicate ColumnEntries(cells: seq<Cell>, column: int, sorted: seq<Cell>) {
    && (forall k :: 0 <= k < |sorted| ==> sorted[k] in cells && Meets(sorted[k], column))
    && (forall k, l :: 0 <= k < l < |sorted| ==> sorted[k] != sorted[l])
    && (forall c :: c in cells && Meets(c, column) ==> c in sorted)
  }

  lemma {:induction false} EntriesOf(cells: seq<Cell>, grid: Rect, column: int, sorted: seq<Cell>)
    requires Tiles(Rects(cells), grid) && multiset(sorted) == multiset(Meeting(cells, column))
    ensures ColumnEntries(cells, column, sorted)
  {
    var meeting := Meeting(cells, column);
    MeetingMembers(cells, column);
    TilesAreDistinct(cells);
    MeetingDistinct(cells, column);
    forall k | 0 <= k < |sorted| ensures sorted[k] in meeting {
      assert sorted[k] in multiset(sorted);
    }
    forall k, l | 0 <= k < l < |sorted| ensures sorted[k] != sorted[l] {
      assert sorted[k] in multiset(sorted);
      if sorted[k] == sorted[l] { DistinctFromMultiset(sorted, k, l); }
    }
    forall c | c in cells && Meets(c, column) ensures c in sorted {
      assert c in multiset(meeting);
    }
  }

  lemma {:induction false} EntriesApart(cells: seq<Cell>, column: int, a: Cell, b: Cell)
    requires AllProper(Rects(cells)) && Disjoint(Rects(cells)) && a in cells && b in cells && a != b
    requires Meets(a, column) && Meets(b, column)
    ensures a.Rect().Proper() && b.Rect().Proper()
    ensures a.Rect().Bottom() < b.row || b.Rect().Bottom() < a.row
  {
    var rects := Rects(cells);
    var i :| 0 <= i < |cells| && cells[i] == a;
    var j :| 0 <= j < |cells| && cells[j] == b;
    assert rects[i].Proper() && rects[j].Proper();
    assert Intersects(rects[i], rects[j]) ==> Intersects(rects[j], rects[i]);
    if i < j { assert !Intersects(rects[i], rects[j]); } else { assert !Intersects(rects[j], rects[i]); }
  }

  lemma {:induction false} EntriesDescend(cells: seq<Cell>, column: int, sorted: seq<Cell>, k: nat, l: nat)
    requires AllProper(Rects(cells)) && Disjoint(Rects(cells)) && ColumnEntries(cells, column, sorted)
    requires SortedByPosition(sorted) && k < l < |sorted|
    ensures sorted[k].Rect().Bottom() < sorted[l].row
    ensures sorted[k].Rect().Proper() && sorted[l].Rect().Proper()
  {
    EntriesApart(cells, column, sorted[k], sorted[l]);
    assert !PositionLess(sorted[l], sorted[k]);
  }

  /** Each entry ends above the later ones. */
  ghost predicate Descends(sorted: seq<Cell>) {
    forall k, l :: 0 <= k < l < |sorted| ==> sorted[k].Rect().Bottom() < sorted[l].row
  }

  lemma {:induction false} AllDescend(cells: seq<Cell>, column: int, sorted: seq<Cell>)
    requires AllProper(Rects(cells)) && Disjoint(Rects(cells)) && ColumnEntries(cells, column, sorted)
    requires SortedByPosition(sorted)
    ensures Descends(sorted)
  {
    forall k, l | 0 <= k < l < |sorted| ensures sorted[k].Rect().Bottom() < sorted[l].row {
      EntriesDescend(cells, column, sorted, k, l);
    }
  }

  lemma {:induction false} OneAboveTheOther(sorted: seq<Cell>, k: nat, l: nat)
    requires Descends(sorted) && k < |sorted| && l < |sorted|
    ensures k < l ==> sorted[k].Rect().Bottom() < sorted[l].row
    ensures l < k ==> sorted[l].Rect().Bottom() < sorted[k].row
  {
  }

  /** Every row of the grid has its slot in this column covered by one of the entries. */
  lemma {:induction false} EntryAtRow(cells: seq<Cell>, grid: Rect, column: int, sorted: seq<Cell>, row: int)
    returns (k: nat)
    requires Tiles(Rects(cells), grid) && ColumnEntries(cells, column, sorted) && grid.Holds(row, column)
    ensures k < |sorted| && sorted[k].row <= row <= sorted[k].Rect().Bottom()
  {
    var i :| 0 <= i < |Rects(cells)| && Rects(cells)[i].Holds(row, column);
    assert cells[i] in cells && Meets(cells[i], column);
    k :| 0 <= k < |sorted| && sorted[k] == cells[i];
    assert cells[i].Rect() == Rects(cells)[i];
  }

  lemma {:induction false} EntryInGrid(cells: seq<Cell>, grid: Rect, column: int, sorted: seq<Cell>, k: nat)
    requires Tiles(Rects(cells), grid) && ColumnEntries(cells, column, sorted) && k < |sorted|
    ensures Inside(sorted[k].Rect(), grid) && sorted[k].Rect().Proper()
  {
    var i :| 0 <= i < |cells| && cells[i] == sorted[k];
    assert Inside(Rects(cells)[i], grid) && Rects(cells)[i].Proper();
  }

  lemma {:induction false} NextEntry(cells: seq<Cell>, grid: Rect, column: int, sorted: seq<Cell>, k: nat)
    requires Tiles(Rects(cells), grid) && ColumnEntries(cells, column, sorted) && Descends(sorted)
    requires k < |sorted| - 1 && grid.column <= column <= grid.Right()
    ensures sorted[k + 1].row == sorted[k].Rect().Bottom() + 1
  {
    EntryInGrid(cells, grid, column, sorted, k);
    EntryInGrid(cells, grid, column, sorted, k + 1);
    var m := EntryAtRow(cells, grid, column, sorted, sorted[k].Rect().Bottom() + 1);
    OneAboveTheOther(sorted, k, m);
    OneAboveTheOther(sorted, k + 1, m);
    OneAboveTheOther(sorted, k, k + 1);
  }

  lemma {:induction false} FirstAndLastEntry(cells: seq<Cell>, rows: nat, columns: nat, column: int, sorted: seq<Cell>)
    requires Tiles(Rects(cells), Grid(rows, columns)) && rows >= 1 && 1 <= column <= columns
    requires ColumnEntries(cells, column, sorted) && Descends(sorted)
    ensures |sorted| > 0 && sorted[0].row == 1 && sorted[|sorted| - 1].Rect().Bottom() == rows
  {
    var grid := Grid(rows, columns);
    var first := EntryAtRow(cells, grid, column, sorted, 1);
    var last := EntryAtRow(cells, grid, column, sorted, rows);
    EntryInGrid(cells, grid, column, sorted, 0);
    EntryInGrid(cells, grid, column, sorted, |sorted| - 1);
    OneAboveTheOther(sorted, 0, first);
    OneAboveTheOther(sorted, last, |sorted| - 1);
  }

  /** On an exact cover the entries of a column stack up without gap from the first row to the last. */
  lemma {:induction false} ColumnIsStacked(cells: seq<Cell>, rows: nat, columns: nat, column: int, sorted: seq<Cell>)
    requires Tiles(Rects(cells), Grid(rows, columns)) && rows >= 1 && 1 <= column <= columns
    requires SortedByPosition(sorted) && multiset(sorted) == multiset(Meeting(cells, column))
    ensures Stacked(sorted, rows)
  {
    var grid := Grid(rows, columns);
    EntriesOf(cells, grid, column, sorted);
    AllDescend(cells, column, sorted);
    FirstAndLastEntry(cells, rows, columns, column, sorted);
    forall k | 0 <= k < |sorted| - 1 ensures sorted[k + 1].row == sorted[k].Rect().Bottom() + 1 {
      NextEntry(cells, grid, column, sorted, k);
    }
  }
}
