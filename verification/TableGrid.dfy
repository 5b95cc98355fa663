/** Cells of a merged table and what it means for them to form a well-linked exact cover of a grid. */
module TableGrid {
  import opened Options
  import opened Geometry
  import opened CellAddress
  import NeighbourOrder

  const MAXIMUM_PHYSICAL_SLOTS := 200_000

  datatype Direction = ToRight | Downward

  /** A physical cell. `row` and `column` are computed from the address, and -1 is an unmeasured size. */
  datatype Cell = Cell(
    address: string, listId: int, rowSpan: int, columnSpan: int, width: int, height: int,
    rightAddress: string, downAddress: string, row: int, column: int)
  {
    function Rect(): Rect { Geometry.Rect.Rect(row, column, rowSpan, columnSpan) }

    function Neighbour(direction: Direction): string {
      if direction == ToRight then rightAddress else downAddress
    }
  }

  function Rects(cells: seq<Cell>): (rects: seq<Rect>)
    ensures |rects| == |cells| && forall i :: 0 <= i < |cells| ==> rects[i] == cells[i].Rect()
  {
    seq(|cells|, i requires 0 <= i < |cells| => cells[i].Rect())
  }

  function Grid(rows: int, columns: int): Rect { Geometry.Rect.Rect(1, 1, rows, columns) }

  function Max(a: int, b: int): int { if a < b then b else a }

  function MaxBottom(cells: seq<Cell>): int {
    if cells == [] then 0 else Max(MaxBottom(cells[..|cells| - 1]), cells[|cells| - 1].Rect().Bottom())
  }

  function MaxRight(cells: seq<Cell>): int {
    if cells == [] then 0 else Max(MaxRight(cells[..|cells| - 1]), cells[|cells| - 1].Rect().Right())
  }

  lemma {:induction false} MaxBounds(cells: seq<Cell>)
    ensures forall i :: 0 <= i < |cells| ==>
      cells[i].Rect().Bottom() <= MaxBottom(cells) && cells[i].Rect().Right() <= MaxRight(cells)
    ensures MaxBottom(cells) >= 0 && MaxRight(cells) >= 0
  {
    if cells != [] {
      MaxBounds(cells[..|cells| - 1]);
      assert forall i :: 0 <= i < |cells| - 1 ==> cells[i] == cells[..|cells| - 1][i];
    }
  }

  // ----- preparing the input -----

  /** Upper-cases the three addresses and places the cell where its own address says. */
  function Prepared(cell: Cell): Cell {
    var at := Parsed(cell.address);
    cell.(
      address := Normalize(cell.address),
      rightAddress := Normalize(cell.rightAddress),
      downAddress := Normalize(cell.downAddress),
      row := if at.Some? then at.value.row else cell.row,
      column := if at.Some? then at.value.column else cell.column)
  }

  function PreparedAll(raw: seq<Cell>): (cells: seq<Cell>)
    ensures |cells| == |raw| && forall i :: 0 <= i < |raw| ==> cells[i] == Prepared(raw[i])
  {
    seq(|raw|, i requires 0 <= i < |raw| => Prepared(raw[i]))
  }

  /** `cell` is the raw cell itself: its own address and its own right and lower neighbour in upper case, its own list
      id, spans and measured sizes, and the place that its address denotes if it denotes one. */
  ghost predicate IsRawCell(cell: Cell, raw: Cell) {
    && UpperCaseOf(cell.address, raw.address)
    && UpperCaseOf(cell.rightAddress, raw.rightAddress) && UpperCaseOf(cell.downAddress, raw.downAddress)
    && cell.listId == raw.listId && cell.rowSpan == raw.rowSpan && cell.columnSpan == raw.columnSpan
    && cell.width == raw.width && cell.height == raw.height
    && (Parsed(raw.address).Some? ==> Parsed(raw.address) == Some(Coordinates(cell.row, cell.column)))
  }

  /** The cells are the raw cells, in their order. */
  ghost predicate AreRawCells(cells: seq<Cell>, raw: seq<Cell>) {
    |cells| == |raw| &&
    forall i {:trigger IsRawCell(cells[i], raw[i])} :: 0 <= i < |raw| ==> IsRawCell(cells[i], raw[i])
  }

  lemma {:induction false} PreparedIsRaw(raw: seq<Cell>)
    ensures AreRawCells(PreparedAll(raw), raw)
  {
    forall i | 0 <= i < |raw| ensures IsRawCell(PreparedAll(raw)[i], raw[i]) {
      NormalizeIsUpperCase(raw[i].address, Normalize(raw[i].address));
      NormalizeIsUpperCase(raw[i].rightAddress, Normalize(raw[i].rightAddress));
      NormalizeIsUpperCase(raw[i].downAddress, Normalize(raw[i].downAddress));
    }
  }

  // ----- the four conditions of an acceptable table -----

  /** The address is its own normal form and says where the cell is. */
  ghost predicate Named(cell: Cell) {
    Normalize(cell.address) == cell.address && Parsed(cell.address) == Some(Coordinates(cell.row, cell.column))
  }

  ghost predicate WellNamed(cells: seq<Cell>) {
    && (forall i :: 0 <= i < |cells| ==> Named(cells[i]) && cells[i].Rect().Proper())
    && (forall i, j :: 0 <= i < j < |cells| ==> cells[i].address != cells[j].address)
  }

  ghost predicate InLongRange(cells: seq<Cell>) {
    forall i :: 0 <= i < |cells| ==> cells[i].Rect().Bottom() <= MAX_LONG && cells[i].Rect().Right() <= MAX_LONG
  }

  predicate GridAllowed(rows: int, columns: int) { 0 < rows * columns <= MAXIMUM_PHYSICAL_SLOTS }

  /** `to` is a legal neighbour of `from` in the given direction. */
  predicate Adjoins(from: Cell, to: Cell, direction: Direction) {
    match direction
    case ToRight => to.column > from.column && NeighbourOrder.RowsOverlap(from.Rect(), to.Rect())
    case Downward => to.row > from.row && NeighbourOrder.ColumnsOverlap(from.Rect(), to.Rect())
  }

  ghost predicate LinkOk(cells: seq<Cell>, i: nat, direction: Direction)
    requires i < |cells|
  {
    var address := cells[i].Neighbour(direction);
    address == "" ||
    exists j :: 0 <= j < |cells| && cells[j].address == address && j != i && Adjoins(cells[i], cells[j], direction)
  }

  ghost predicate Linked(cells: seq<Cell>) {
    forall i :: 0 <= i < |cells| ==> LinkOk(cells, i, ToRight) && LinkOk(cells, i, Downward)
  }

  ghost predicate AcceptableCells(cells: seq<Cell>) {
    && WellNamed(cells)
    && InLongRange(cells)
    && GridAllowed(MaxBottom(cells), MaxRight(cells))
    && Tiles(Rects(cells), Grid(MaxBottom(cells), MaxRight(cells)))
    && Linked(cells)
  }

  /** What a table must be for its topology to be accepted: named, in range, an exact cover, well linked. */
  ghost predicate Acceptable(raw: seq<Cell>) {
    raw != [] && AcceptableCells(PreparedAll(raw))
  }

  // ----- the address index -----

  ghost predicate Indexed(cells: seq<Cell>, byAddress: map<string, nat>) {
    && (forall i :: 0 <= i < |cells| ==> cells[i].address in byAddress && byAddress[cells[i].address] == i)
    && (forall a :: a in byAddress ==> byAddress[a] < |cells| && cells[byAddress[a]].address == a)
  }

  // ----- the owner index: one entry per slot, row by row -----

  /** Position of a slot in the row-by-row index. */
  function Slot(r: int, c: int, columns: nat): int
    decreases r
  {
    if r <= 1 then c - 1 else columns + Slot(r - 1, c, columns)
  }

  lemma {:induction false} SlotIs(r: int, c: int, columns: nat)
    requires r >= 1
    ensures Slot(r, c, columns) == (r - 1) * columns + (c - 1)
    decreases r
  {
    if r > 1 {
      SlotIs(r - 1, c, columns);
      assert (r - 2) * columns + columns == (r - 1) * columns;
    }
  }

  lemma {:induction false} SlotInGrid(rows: int, columns: nat, r: int, c: int)
    requires Grid(rows, columns).Holds(r, c)
    ensures 0 <= Slot(r, c, columns) < rows * columns
    decreases rows
  {
    if r == rows {
      SlotIs(r, c, columns);
      assert (rows - 1) * columns + columns == rows * columns;
      assert 0 <= (rows - 1) * columns;
    } else {
      SlotInGrid(rows - 1, columns, r, c);
      assert (rows - 1) * columns + columns == rows * columns;
    }
  }

  lemma {:induction false} SlotInjective(columns: nat, r: int, c: int, r': int, c': int)
    requires 1 <= r && 1 <= r' && 1 <= c <= columns && 1 <= c' <= columns
    requires Slot(r, c, columns) == Slot(r', c', columns)
    ensures r == r' && c == c'
    decreases r
  {
    if r > 1 && r' > 1 {
      SlotInjective(columns, r - 1, c, r' - 1, c');
    } else if r > 1 {
      SlotAtLeast(r - 1, c, columns);
    } else if r' > 1 {
      SlotAtLeast(r' - 1, c', columns);
    }
  }

  lemma {:induction false} SlotAtLeast(r: int, c: int, columns: nat)
    requires 1 <= r && 1 <= c
    ensures Slot(r, c, columns) >= 0
    decreases r
  {
    if r > 1 { SlotAtLeast(r - 1, c, columns); }
  }

  lemma {:induction false} SlotsInGrid(rows: int, columns: nat)
    ensures forall r, c :: Grid(rows, columns).Holds(r, c) ==> 0 <= Slot(r, c, columns) < rows * columns
  {
    forall r, c | Grid(rows, columns).Holds(r, c) ensures 0 <= Slot(r, c, columns) < rows * columns {
      SlotInGrid(rows, columns, r, c);
    }
  }

  lemma {:induction false} SlotApart(rows: int, columns: nat, r0: int, c0: int)
    requires Grid(rows, columns).Holds(r0, c0)
    ensures forall r, c :: Grid(rows, columns).Holds(r, c) && Slot(r, c, columns) == Slot(r0, c0, columns) ==>
              r == r0 && c == c0
  {
    forall r, c | Grid(rows, columns).Holds(r, c) && Slot(r, c, columns) == Slot(r0, c0, columns)
      ensures r == r0 && c == c0
    {
      SlotInjective(columns, r, c, r0, c0);
    }
  }

  /** Every slot of the grid names the cell that covers it. */
  ghost predicate Owned(owners: seq<int>, cells: seq<Cell>, rows: nat, columns: nat) {
    |owners| == rows * columns &&
    forall r, c :: Grid(rows, columns).Holds(r, c) ==>
      0 <= Slot(r, c, columns) < |owners| &&
      0 <= owners[Slot(r, c, columns)] < |cells| && cells[owners[Slot(r, c, columns)]].Rect().Holds(r, c)
  }

  /** An accepted topology: the fields agree with each other and the cells are an exact, well-linked cover. */
  ghost predicate Built(
    cells: seq<Cell>, byAddress: map<string, nat>, owners: seq<int>, rows: nat, columns: nat)
  {
    && cells != [] && WellNamed(cells) && Indexed(cells, byAddress)
    && GridAllowed(rows, columns)
    && Tiles(Rects(cells), Grid(rows, columns))
    && Owned(owners, cells, rows, columns)
    && Linked(cells)
  }

  /** In an exact cover a slot has one covering cell. */
  lemma {:induction false} OwnerUnique(cells: seq<Cell>, i: nat, j: nat, r: int, c: int)
    requires Disjoint(Rects(cells))
    requires i < |cells| && j < |cells| && cells[i].Rect().Holds(r, c) && cells[j].Rect().Holds(r, c)
    ensures i == j
  {
    var rects := Rects(cells);
    assert Intersects(rects[i], rects[j]) && Intersects(rects[j], rects[i]);
  }

  lemma {:induction false} NatProduct(a: nat, b: nat)
    ensures a * b >= 0
  {
  }

  /** Reads the owner of a slot out of the index. */
  function OwnerIn(cells: seq<Cell>, owners: seq<int>, rows: int, columns: nat, row: int, column: int): Option<nat> {
    if row < 1 || column < 1 || row > rows || column > columns then None
    else
      NatProduct(row - 1, columns);
      var slot := (row - 1) * columns + (column - 1);
      if slot >= |owners| then None
      else if 0 <= owners[slot] < |cells| then Some(owners[slot]) else None
  }

  lemma {:induction false} OwnerInGrid(cells: seq<Cell>, owners: seq<int>, rows: nat, columns: nat, row: int,
                                       column: int)
    requires Owned(owners, cells, rows, columns) && Grid(rows, columns).Holds(row, column)
    ensures
      var owner := OwnerIn(cells, owners, rows, columns, row, column);
      owner.Some? && owner.value < |cells| && cells[owner.value].Rect().Holds(row, column)
  {
    SlotIs(row, column, columns);
    NatProduct(row - 1, columns);
    var slot := Slot(row, column, columns);
    assert 0 <= slot < |owners| && 0 <= owners[slot] < |cells|;
  }

  /** The owner of a slot: one for exactly the slots of the grid, and then the only cell that covers it. */
  lemma {:induction false} OwnerInCorrect(cells: seq<Cell>, owners: seq<int>, rows: nat, columns: nat, row: int,
                                          column: int)
    requires Owned(owners, cells, rows, columns) && Disjoint(Rects(cells))
    ensures
      var owner := OwnerIn(cells, owners, rows, columns, row, column);
      && (owner.Some? <==> Grid(rows, columns).Holds(row, column))
      && (owner.Some? ==> owner.value < |cells| && cells[owner.value].Rect().Holds(row, column))
      && (owner.Some? ==> forall i :: 0 <= i < |cells| && cells[i].Rect().Holds(row, column) ==> i == owner.value)
  {
    if Grid(rows, columns).Holds(row, column) {
      OwnerInGrid(cells, owners, rows, columns, row, column);
      var owner := OwnerIn(cells, owners, rows, columns, row, column).value;
      forall i | 0 <= i < |cells| && cells[i].Rect().Holds(row, column) ensures i == owner {
        OwnerUnique(cells, i, owner, row, column);
      }
    }
  }
}
