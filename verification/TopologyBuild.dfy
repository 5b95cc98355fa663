/** Building a topology: the passes over the input cells, each proved against the condition it checks. */
module TopologyBuild {
  import opened Options
  import opened Geometry
  import opened CellAddress
  import opened TableGrid

  datatype BuildError =
    | NoCells
    | InvalidOrDuplicateCell
    | DimensionsOverflow
    | GridTooLarge
    | CellsOverlap
    | GridGap
    | InvalidNeighbour

  /** State of the first pass: the cells so far with their index and extent. */
  ghost predicate Located(cells: seq<Cell>, byAddress: map<string, nat>, rows: int, columns: int) {
    && WellNamed(cells) && InLongRange(cells) && Indexed(cells, byAddress)
    && rows == MaxBottom(cells) && columns == MaxRight(cells)
  }

  ghost predicate Refused(cell: Cell, byAddress: map<string, nat>, error: BuildError) {
    match error
    case InvalidOrDuplicateCell => !Named(cell) || !cell.Rect().Proper() || cell.address in byAddress
    case DimensionsOverflow => cell.Rect().Bottom() > MAX_LONG || cell.Rect().Right() > MAX_LONG
    case _ => false
  }

  ghost predicate FirstPassError(cells: seq<Cell>, error: BuildError) {
    match error
    case InvalidOrDuplicateCell => !WellNamed(cells)
    case DimensionsOverflow => !InLongRange(cells)
    case _ => false
  }

  /** The checks on one cell, in the order they are made. */
  method LocateCell(raw: Cell, byAddress: map<string, nat>) returns (error: Option<BuildError>, cell: Cell)
    ensures cell == Prepared(raw)
    ensures error.None? ==> Acceptance(cell, byAddress)
    ensures error.Some? ==> Refused(cell, byAddress, error.value)
  {
    cell := Prepared(raw);
    NormalizeIdempotent(raw.address);
    var at := ParseCellAddress(cell.address);
    if at.None? || cell.rowSpan < 1 || cell.columnSpan < 1 || cell.address in byAddress {
      return Some(InvalidOrDuplicateCell), cell;
    }
    var bottom := cell.row + cell.rowSpan - 1;
    var right := cell.column + cell.columnSpan - 1;
    if bottom > MAX_LONG || right > MAX_LONG {
      return Some(DimensionsOverflow), cell;
    }
    error := None;
  }

  ghost predicate Acceptance(cell: Cell, byAddress: map<string, nat>) {
    && Named(cell) && cell.Rect().Proper() && cell.address !in byAddress
    && cell.Rect().Bottom() <= MAX_LONG && cell.Rect().Right() <= MAX_LONG
  }

  method AppendCell(cells: seq<Cell>, byAddress: map<string, nat>, rows: int, columns: int, cell: Cell)
    returns (cells': seq<Cell>, byAddress': map<string, nat>, rows': int, columns': int)
    requires Located(cells, byAddress, rows, columns) && Acceptance(cell, byAddress)
    ensures cells' == cells + [cell] && Located(cells', byAddress', rows', columns')
  {
    AddCell(cells, byAddress, rows, columns, cell);
    rows' := Max(rows, cell.row + cell.rowSpan - 1);
    columns' := Max(columns, cell.column + cell.columnSpan - 1);
    byAddress' := byAddress[cell.address := |cells|];
    cells' := cells + [cell];
  }

  /** First pass: prepare every cell, index the addresses and measure the grid. */
  method LocateCells(raw: seq<Cell>)
    returns (error: Option<BuildError>, cells: seq<Cell>, byAddress: map<string, nat>, rows: int, columns: int)
    ensures error.None? ==> cells == PreparedAll(raw) && Located(cells, byAddress, rows, columns)
    ensures error.None? ==> AreRawCells(cells, raw)
    ensures error.Some? ==> FirstPassError(PreparedAll(raw), error.value)
  {
    cells, byAddress, rows, columns := [], map[], 0, 0;
    ghost var all := PreparedAll(raw);
    NothingPrepared(all);
    for index := 0 to |raw|
      invariant PreparedUpTo(all, index, cells)
      invariant Located(cells, byAddress, rows, columns)
    {
      var cell;
      error, cell := LocateCell(raw[index], byAddress);
      if error.Some? {
        Refuse(all, index, cells, byAddress, error.value);
        return;
      }
      PreparedOneMore(all, index, cells, cell);
      cells, byAddress, rows, columns := AppendCell(cells, byAddress, rows, columns, cell);
    }
    AllPrepared(all, cells);
    PreparedIsRaw(raw);
    error := None;
  }

  ghost predicate PreparedUpTo(all: seq<Cell>, index: nat, cells: seq<Cell>) {
    index <= |all| && cells == all[..index]
  }

  lemma {:induction false} NothingPrepared(all: seq<Cell>)
    ensures PreparedUpTo(all, 0, []) && Located([], map[], 0, 0)
  {
  }

  lemma {:induction false} PreparedOneMore(all: seq<Cell>, index: nat, cells: seq<Cell>, cell: Cell)
    requires PreparedUpTo(all, index, cells) && index < |all| && cell == all[index]
    ensures PreparedUpTo(all, index + 1, cells + [cell])
  {
  }

  lemma {:induction false} AllPrepared(all: seq<Cell>, cells: seq<Cell>)
    requires PreparedUpTo(all, |all|, cells)
    ensures cells == all
  {
  }

  lemma {:induction false} Refuse(all: seq<Cell>, index: nat, cells: seq<Cell>, byAddress: map<string, nat>,
                                  error: BuildError)
    requires PreparedUpTo(all, index, cells) && index < |all| && Indexed(cells, byAddress)
    requires Refused(all[index], byAddress, error)
    ensures FirstPassError(all, error)
  {
    if all[index].address in byAddress {
      var j := byAddress[all[index].address];
      assert all[..index][j] == all[j];
    }
  }

  lemma {:induction false} AddCell(cells: seq<Cell>, byAddress: map<string, nat>, rows: int, columns: int, cell: Cell)
    requires Located(cells, byAddress, rows, columns)
    requires Acceptance(cell, byAddress)
    ensures Located(cells + [cell], byAddress[cell.address := |cells|],
                    Max(rows, cell.Rect().Bottom()), Max(columns, cell.Rect().Right()))
  {
    AddNamed(cells, byAddress, cell);
    AddIndexed(cells, byAddress, cell);
    MeasureCell(cells, cell);
    assert InLongRange(cells + [cell]);
  }

  lemma {:induction false} AddNamed(cells: seq<Cell>, byAddress: map<string, nat>, cell: Cell)
    requires WellNamed(cells) && Indexed(cells, byAddress)
    requires Named(cell) && cell.Rect().Proper() && cell.address !in byAddress
    ensures WellNamed(cells + [cell])
  {
    var added := cells + [cell];
    forall i | 0 <= i < |added| ensures Named(added[i]) && added[i].Rect().Proper() {
      if i < |cells| { assert added[i] == cells[i]; }
    }
    forall i, j | 0 <= i < j < |added| ensures added[i].address != added[j].address {
      assert cells[i].address in byAddress;
    }
  }

  lemma {:induction false} AddIndexed(cells: seq<Cell>, byAddress: map<string, nat>, cell: Cell)
    requires Indexed(cells, byAddress) && cell.address !in byAddress
    ensures Indexed(cells + [cell], byAddress[cell.address := |cells|])
  {
    var added := cells + [cell];
    assert forall i :: 0 <= i < |cells| ==> added[i] == cells[i] && added[i].address != cell.address;
  }

  lemma {:induction false} MeasureCell(cells: seq<Cell>, cell: Cell)
    ensures MaxBottom(cells + [cell]) == Max(MaxBottom(cells), cell.Rect().Bottom())
    ensures MaxRight(cells + [cell]) == Max(MaxRight(cells), cell.Rect().Right())
  {
    assert (cells + [cell])[..|cells|] == cells;
  }

  // ----- second pass: one owner per slot -----

  /** The owner index after the first `upto` cells have been entered: -1 where no cell lies. */
  ghost predicate Entered(owners: seq<int>, cells: seq<Cell>, upto: nat, rows: nat, columns: nat)
    requires upto <= |cells|
  {
    |owners| == rows * columns &&
    forall r, c :: Grid(rows, columns).Holds(r, c) ==>
      0 <= Slot(r, c, columns) < |owners| && EnteredAt(owners[Slot(r, c, columns)], cells, upto, r, c)
  }

  ghost predicate EnteredAt(owner: int, cells: seq<Cell>, upto: nat, r: int, c: int)
    requires upto <= |cells|
  {
    -1 <= owner < upto &&
    (owner >= 0 ==> cells[owner].Rect().Holds(r, c)) &&
    (owner == -1 ==> forall i :: 0 <= i < upto ==> !cells[i].Rect().Holds(r, c))
  }

  /** Whether the scan of `area` that stands at row `row`, column `column` has passed the slot (r, c). */
  predicate Passed(area: Rect, row: int, column: int, r: int, c: int) {
    area.Holds(r, c) && (r < row || (r == row && c < column))
  }

  /** `owners` is `before` with `index` written into the passed slots, all of which were free. */
  ghost predicate Claimed(
    owners: seq<int>, before: seq<int>, index: nat, area: Rect, row: int, column: int, rows: nat, columns: nat)
  {
    |owners| == |before| == rows * columns &&
    forall r, c :: Grid(rows, columns).Holds(r, c) ==>
      0 <= Slot(r, c, columns) < |owners| &&
      ClaimedAt(owners[Slot(r, c, columns)], before[Slot(r, c, columns)], index, Passed(area, row, column, r, c))
  }

  predicate ClaimedAt(owner: int, before: int, index: nat, passed: bool) {
    if passed then owner == index && before == -1 else owner == before
  }

  /** Enters one slot. The slot must not have an owner already. */
  method ClaimSlot(owners: array<int>, ghost before: seq<int>, index: nat, ghost area: Rect,
                   row: int, column: int, ghost rows: nat, columns: nat)
    returns (vacant: bool)
    requires Claimed(owners[..], before, index, area, row, column, rows, columns)
    requires Inside(area, Grid(rows, columns)) && area.Holds(row, column)
    modifies owners
    ensures vacant ==> Claimed(owners[..], before, index, area, row, column + 1, rows, columns)
    ensures !vacant ==> before[Slot(row, column, columns)] != -1
  {
    SlotIs(row, column, columns);
    var slot := (row - 1) * columns + (column - 1);
    assert Grid(rows, columns).Holds(row, column);
    if owners[slot] != -1 {
      return false;
    }
    SlotApart(rows, columns, row, column);
    ghost var was := owners[..];
    owners[slot] := index;
    assert owners[..] == was[slot := index];
    vacant := true;
  }

  /** Enters one cell: every slot of its rectangle, row by row. */
  method ClaimCell(owners: array<int>, index: nat, area: Rect, ghost rows: nat, columns: nat)
    returns (vacant: bool, assignedSlots: int)
    requires owners.Length == rows * columns
    requires area.Proper() && Inside(area, Grid(rows, columns))
    modifies owners
    ensures vacant ==> Claimed(owners[..], old(owners[..]), index, area, area.Bottom() + 1, area.column, rows, columns)
    ensures vacant ==> assignedSlots == area.Area()
    ensures !vacant ==> exists r, c :: area.Holds(r, c) && ClaimedSlot(old(owners[..]), r, c, columns)
  {
    ghost var before := owners[..];
    SlotsInGrid(rows, columns);
    var row := area.row;
    assignedSlots := 0;
    while row < area.row + area.rowSpan
      invariant area.row <= row <= area.Bottom() + 1
      invariant Claimed(owners[..], before, index, area, row, area.column, rows, columns)
      invariant assignedSlots == (row - area.row) * area.columnSpan
    {
      var column := area.column;
      while column < area.column + area.columnSpan
        invariant area.column <= column <= area.Right() + 1
        invariant Claimed(owners[..], before, index, area, row, column, rows, columns)
        invariant assignedSlots == (row - area.row) * area.columnSpan + (column - area.column)
      {
        vacant := ClaimSlot(owners, before, index, area, row, column, rows, columns);
        if !vacant {
          assert area.Holds(row, column) && ClaimedSlot(before, row, column, columns);
          return false, assignedSlots;
        }
        column := column + 1;
        assignedSlots := assignedSlots + 1;
      }
      NextRow(owners[..], before, index, area, row, rows, columns);
      assert (row - area.row) * area.columnSpan + area.columnSpan == (row + 1 - area.row) * area.columnSpan;
      row := row + 1;
    }
    assert row - area.row == area.rowSpan;
    vacant := true;
  }

  ghost predicate ClaimedSlot(before: seq<int>, r: int, c: int, columns: nat) {
    0 <= Slot(r, c, columns) < |before| && before[Slot(r, c, columns)] != -1
  }

  lemma {:induction false} NextRow(owners: seq<int>, before: seq<int>, index: nat, area: Rect, row: int, rows: nat,
                                   columns: nat)
    requires Claimed(owners, before, index, area, row, area.Right() + 1, rows, columns)
    ensures Claimed(owners, before, index, area, row + 1, area.column, rows, columns)
  {
    forall r, c | Grid(rows, columns).Holds(r, c)
      ensures Passed(area, row, area.Right() + 1, r, c) == Passed(area, row + 1, area.column, r, c)
    {
    }
  }

  lemma {:induction false} CellEntered(owners: seq<int>, before: seq<int>, cells: seq<Cell>, index: nat, rows: nat,
                                       columns: nat)
    requires index < |cells| && Entered(before, cells, index, rows, columns)
    requires var area := cells[index].Rect();
      Claimed(owners, before, index, area, area.Bottom() + 1, area.column, rows, columns)
    ensures Entered(owners, cells, index + 1, rows, columns)
  {
    forall r, c | Grid(rows, columns).Holds(r, c)
      ensures 0 <= Slot(r, c, columns) < |owners| && EnteredAt(owners[Slot(r, c, columns)], cells, index + 1, r, c)
    {
      assert EnteredAt(before[Slot(r, c, columns)], cells, index, r, c);
    }
  }

  lemma {:induction false} CellDisjoint(owners: seq<int>, before: seq<int>, cells: seq<Cell>, index: nat, rows: nat,
                                        columns: nat)
    requires index < |cells| && Entered(before, cells, index, rows, columns)
    requires AllInside(Rects(cells), Grid(rows, columns)) && AllProper(Rects(cells))
    requires Disjoint(Rects(cells)[..index])
    requires var area := cells[index].Rect();
      Claimed(owners, before, index, area, area.Bottom() + 1, area.column, rows, columns)
    ensures Disjoint(Rects(cells)[..index + 1])
  {
    var rects := Rects(cells);
    forall i | 0 <= i < index ensures !Intersects(rects[i], rects[index]) {
      var r := Max(rects[i].row, rects[index].row);
      var c := Max(rects[i].column, rects[index].column);
      assert Inside(rects[i], Grid(rows, columns)) && rects[i].Proper() && rects[index].Proper();
      assert Intersects(rects[i], rects[index]) ==> rects[i].Holds(r, c) && rects[index].Holds(r, c);
      var slot := Slot(r, c, columns);
    }
    assert forall i :: 0 <= i < index ==> rects[..index][i] == rects[i];
  }

  lemma {:induction false} OverlapFound(before: seq<int>, cells: seq<Cell>, index: nat, rows: nat, columns: nat)
    requires index < |cells| && Entered(before, cells, index, rows, columns)
    requires AllInside(Rects(cells), Grid(rows, columns))
    requires exists r, c :: cells[index].Rect().Holds(r, c) && ClaimedSlot(before, r, c, columns)
    ensures !Disjoint(Rects(cells))
  {
    var r, c :| cells[index].Rect().Holds(r, c) && ClaimedSlot(before, r, c, columns);
    var rects := Rects(cells);
    assert Inside(rects[index], Grid(rows, columns));
    assert EnteredAt(before[Slot(r, c, columns)], cells, index, r, c);
    var i := before[Slot(r, c, columns)];
    assert Intersects(rects[i], rects[index]);
  }

  lemma {:induction false} GridHoldsCells(cells: seq<Cell>)
    requires WellNamed(cells)
    ensures AllInside(Rects(cells), Grid(MaxBottom(cells), MaxRight(cells))) && AllProper(Rects(cells))
  {
    MaxBounds(cells);
    forall i | 0 <= i < |cells|
      ensures Rects(cells)[i].Proper() && Inside(Rects(cells)[i], Grid(MaxBottom(cells), MaxRight(cells)))
    {
      assert Named(cells[i]);
    }
  }

  /** State of the second pass after `upto` cells: no overlap so far, and as many slots assigned as their areas. */
  ghost predicate Filled(owners: seq<int>, cells: seq<Cell>, upto: nat, rows: nat, columns: nat, assignedSlots: int)
    requires upto <= |cells|
  {
    && Entered(owners, cells, upto, rows, columns)
    && Disjoint(Rects(cells)[..upto])
    && assignedSlots == TotalArea(Rects(cells)[..upto])
  }

  lemma {:induction false} FillStep(owners: seq<int>, before: seq<int>, cells: seq<Cell>, index: nat, rows: nat,
                                    columns: nat, slots: int)
    requires index < |cells| && Filled(before, cells, index, rows, columns, slots)
    requires AllInside(Rects(cells), Grid(rows, columns)) && AllProper(Rects(cells))
    requires var area := cells[index].Rect();
      Claimed(owners, before, index, area, area.Bottom() + 1, area.column, rows, columns)
    ensures Filled(owners, cells, index + 1, rows, columns, slots + cells[index].Rect().Area())
  {
    CellEntered(owners, before, cells, index, rows, columns);
    CellDisjoint(owners, before, cells, index, rows, columns);
    var rects := Rects(cells);
    assert rects[..index + 1][..index] == rects[..index];
  }

  method EmptyOwners(slots: nat, ghost cells: seq<Cell>, ghost rows: nat, ghost columns: nat)
    returns (ownerBySlot: array<int>)
    requires slots == rows * columns
    ensures fresh(ownerBySlot) && ownerBySlot.Length == slots
    ensures Filled(ownerBySlot[..], cells, 0, rows, columns, 0)
  {
    ownerBySlot := new int[slots](_ => -1);
    SlotsInGrid(rows, columns);
    assert Rects(cells)[..0] == [];
  }

  /** Second pass: fill the owner index slot by slot and count the slots assigned. The pass accepts
      exactly the cell lists that cover the grid with no overlap and no gap. */
  method AssignOwners(cells: seq<Cell>, rows: nat, columns: nat, expectedSlots: nat)
    returns (error: Option<BuildError>, owners: seq<int>)
    requires WellNamed(cells) && rows == MaxBottom(cells) && columns == MaxRight(cells)
    requires expectedSlots == rows * columns
    ensures error.None? <==> Tiles(Rects(cells), Grid(rows, columns))
    ensures error.None? ==> Owned(owners, cells, rows, columns)
    ensures error == Some(CellsOverlap) ==> !Disjoint(Rects(cells))
    ensures error == Some(GridGap) ==> Disjoint(Rects(cells)) && !Covers(Rects(cells), Grid(rows, columns))
    ensures error.Some? ==> error.value in {CellsOverlap, GridGap}
  {
    GridHoldsCells(cells);
    var ownerBySlot := EmptyOwners(expectedSlots, cells, rows, columns);
    var assignedSlots := 0;
    for index := 0 to |cells|
      invariant Filled(ownerBySlot[..], cells, index, rows, columns, assignedSlots)
    {
      ghost var before := ownerBySlot[..];
      assert Rects(cells)[index] == cells[index].Rect();
      var vacant, slots := ClaimCell(ownerBySlot, index, cells[index].Rect(), rows, columns);
      if !vacant {
        OverlapFound(before, cells, index, rows, columns);
        return Some(CellsOverlap), [];
      }
      FillStep(ownerBySlot[..], before, cells, index, rows, columns, assignedSlots);
      assignedSlots := assignedSlots + slots;
    }
    owners := ownerBySlot[..];
    GapDecided(owners, cells, rows, columns, assignedSlots);
    error := if assignedSlots != expectedSlots then Some(GridGap) else None;
  }

  lemma {:induction false} GapDecided(owners: seq<int>, cells: seq<Cell>, rows: nat, columns: nat, assignedSlots: int)
    requires Filled(owners, cells, |cells|, rows, columns, assignedSlots)
    requires AllInside(Rects(cells), Grid(rows, columns)) && AllProper(Rects(cells))
    ensures Disjoint(Rects(cells))
    ensures assignedSlots == rows * columns <==> Covers(Rects(cells), Grid(rows, columns))
    ensures assignedSlots == rows * columns ==> Owned(owners, cells, rows, columns)
  {
    assert Rects(cells)[..|cells|] == Rects(cells);
    AreaDecidesCover(Rects(cells), Grid(rows, columns));
    if assignedSlots == rows * columns {
      EveryoneOwned(owners, cells, rows, columns);
    }
  }

  lemma {:induction false} EveryoneOwned(owners: seq<int>, cells: seq<Cell>, rows: nat, columns: nat)
    requires Entered(owners, cells, |cells|, rows, columns)
    requires Covers(Rects(cells), Grid(rows, columns))
    ensures Owned(owners, cells, rows, columns)
  {
    forall r, c | Grid(rows, columns).Holds(r, c)
      ensures 0 <= Slot(r, c, columns) < |owners| && 0 <= owners[Slot(r, c, columns)] < |cells| &&
              cells[owners[Slot(r, c, columns)]].Rect().Holds(r, c)
    {
      assert EnteredAt(owners[Slot(r, c, columns)], cells, |cells|, r, c);
      var i :| 0 <= i < |cells| && Rects(cells)[i].Holds(r, c);
      assert cells[i].Rect().Holds(r, c);
    }
  }

  // ----- third pass: neighbour links -----

  method CheckNeighbour(cells: seq<Cell>, byAddress: map<string, nat>, i: nat, direction: Direction)
    returns (ok: bool)
    requires i < |cells| && Indexed(cells, byAddress)
    ensures ok <==> LinkOk(cells, i, direction)
  {
    var address := cells[i].Neighbour(direction);
    if address == "" {
      return true;
    }
    if address !in byAddress || address == cells[i].address {
      return false;
    }
    ok := Adjoins(cells[i], cells[byAddress[address]], direction);
  }

  method CheckNeighbours(cells: seq<Cell>, byAddress: map<string, nat>) returns (ok: bool)
    requires Indexed(cells, byAddress)
    ensures ok <==> Linked(cells)
  {
    for index := 0 to |cells|
      invariant forall i :: 0 <= i < index ==> LinkOk(cells, i, ToRight) && LinkOk(cells, i, Downward)
    {
      var right := CheckNeighbour(cells, byAddress, index, ToRight);
      var down := CheckNeighbour(cells, byAddress, index, Downward);
      if !right || !down {
        return false;
      }
    }
    ok := true;
  }

  // ----- all passes -----

  method ExamineCells(cells: seq<Cell>, byAddress: map<string, nat>, rows: nat, columns: nat)
    returns (error: Option<BuildError>, owners: seq<int>)
    requires cells != [] && Located(cells, byAddress, rows, columns)
    ensures error.None? <==> AcceptableCells(cells)
    ensures error.None? ==> Built(cells, byAddress, owners, rows, columns)
  {
    NatProduct(rows, columns);
    var expectedSlots := rows * columns;
    if expectedSlots == 0 || expectedSlots > MAXIMUM_PHYSICAL_SLOTS {
      return Some(GridTooLarge), [];
    }
    error, owners := AssignOwners(cells, rows, columns, expectedSlots);
    if error.Some? {
      return;
    }
    var linked := CheckNeighbours(cells, byAddress);
    error := if linked then None else Some(InvalidNeighbour);
  }

  /** Everything `Build` computes before it touches the object. */
  method Examine(raw: seq<Cell>)
    returns (error: Option<BuildError>, cells: seq<Cell>, byAddress: map<string, nat>, owners: seq<int>,
             rows: nat, columns: nat)
    ensures error.None? <==> Acceptable(raw)
    ensures error.None? ==>
      && Built(cells, byAddress, owners, rows, columns) && cells == PreparedAll(raw)
      && rows == MaxBottom(cells) && columns == MaxRight(cells)
    ensures error.None? ==> AreRawCells(cells, raw)
  {
    owners, rows, columns := [], 0, 0;
    if raw == [] {
      return Some(NoCells), [], map[], owners, rows, columns;
    }
    var bottom, right;
    error, cells, byAddress, bottom, right := LocateCells(raw);
    if error.Some? {
      return;
    }
    MaxBounds(cells);
    rows, columns := bottom, right;
    error, owners := ExamineCells(cells, byAddress, rows, columns);
  }
}
