/** Tables without merged cells: in any order, one cell for each slot of a grid, each naming the cell to its right and
    the cell below it. Such a table is accepted, and any two of its cells can be merged along a direct path. */
module PlainGrids {
  import opened Options
  import opened Geometry
  import opened CellAddress
  import opened TableGrid
  import opened NeighbourPaths
  import opened Regions
  import opened TablePlans

  /** The address of the slot in row `r` and column `c`, both from one. */
  function Name(r: int, c: int): string
    requires r >= 1 && c >= 1
  {
    Address(r - 1, c - 1)
  }

  /** A single cell for the slot, with the two links that the grid has for it; in either case. */
  ghost predicate PlainCell(raw: Cell, rows: nat, columns: nat, r: int, c: int) {
    && Grid(rows, columns).Holds(r, c) && raw.rowSpan == 1 && raw.columnSpan == 1
    && UpperCaseOf(Name(r, c), raw.address)
    && UpperCaseOf(if c < columns then Name(r, c + 1) else "", raw.rightAddress)
    && UpperCaseOf(if r < rows then Name(r + 1, c) else "", raw.downAddress)
  }

  /** One cell for every slot, and nothing else; `at` says which slot each cell is for. */
  ghost predicate PlainTable(raw: seq<Cell>, rows: nat, columns: nat, at: seq<(int, int)>) {
    && |at| == |raw|
    && (forall i :: 0 <= i < |raw| ==> PlainCell(raw[i], rows, columns, at[i].0, at[i].1))
    && (forall r, c :: Grid(rows, columns).Holds(r, c) ==> (r, c) in at)
    && (forall i, j :: 0 <= i < j < |at| ==> at[i] != at[j])
  }

  /** The same of a prepared cell, which knows its slot. */
  ghost predicate Placed(cell: Cell, rows: nat, columns: nat) {
    && Grid(rows, columns).Holds(cell.row, cell.column) && cell.rowSpan == 1 && cell.columnSpan == 1
    && cell.address == Name(cell.row, cell.column)
    && cell.rightAddress == (if cell.column < columns then Name(cell.row, cell.column + 1) else "")
    && cell.downAddress == (if cell.row < rows then Name(cell.row + 1, cell.column) else "")
  }

  ghost predicate StandsAt(cells: seq<Cell>, i: nat, r: int, c: int) {
    i < |cells| && cells[i].row == r && cells[i].column == c
  }

  ghost predicate AllPlaced(cells: seq<Cell>, rows: nat, columns: nat) {
    && (forall i :: 0 <= i < |cells| ==> Placed(cells[i], rows, columns))
    && (forall r, c :: Grid(rows, columns).Holds(r, c) ==> exists i: nat :: StandsAt(cells, i, r, c))
    && (forall i, j :: 0 <= i < j < |cells| ==> cells[i].row != cells[j].row || cells[i].column != cells[j].column)
  }

  lemma {:induction false} NameDenotes(r: int, c: int)
    requires 1 <= r <= MAXIMUM_PHYSICAL_SLOTS && 1 <= c <= MAXIMUM_PHYSICAL_SLOTS
    ensures Normalize(Name(r, c)) == Name(r, c) && Parsed(Name(r, c)) == Some(Coordinates(r, c)) && Name(r, c) != ""
  {
    AddressDenotes(r - 1, c - 1);
  }

  lemma {:induction false} RawDenotes(raw: string, r: int, c: int)
    requires 1 <= r <= MAXIMUM_PHYSICAL_SLOTS && 1 <= c <= MAXIMUM_PHYSICAL_SLOTS && Normalize(raw) == Name(r, c)
    ensures Parsed(raw) == Some(Coordinates(r, c))
  {
    NameDenotes(r, c);
    NormalizeIdempotent(raw);
  }

  lemma {:induction false} ProductAtLeast(a: nat, b: nat)
    requires b >= 1
    ensures a * b >= a
  {
    NatProduct(a, b - 1);
    assert a * b == a * (b - 1) + a;
  }

  lemma {:induction false} SmallGrid(rows: nat, columns: nat)
    requires GridAllowed(rows, columns)
    ensures 1 <= rows <= MAXIMUM_PHYSICAL_SLOTS && 1 <= columns <= MAXIMUM_PHYSICAL_SLOTS
  {
    ProductAtLeast(rows, columns);
    ProductAtLeast(columns, rows);
  }

  lemma {:induction false} PlainNames(raw: Cell, rows: nat, columns: nat, r: int, c: int)
    requires PlainCell(raw, rows, columns, r, c)
    ensures Normalize(raw.address) == Name(r, c)
    ensures Normalize(raw.rightAddress) == (if c < columns then Name(r, c + 1) else "")
    ensures Normalize(raw.downAddress) == (if r < rows then Name(r + 1, c) else "")
  {
    NormalizeIsUpperCase(raw.address, Name(r, c));
    NormalizeIsUpperCase(raw.rightAddress, if c < columns then Name(r, c + 1) else "");
    NormalizeIsUpperCase(raw.downAddress, if r < rows then Name(r + 1, c) else "");
  }

  lemma {:induction false} PlacedWhere(raw: Cell, rows: nat, columns: nat, r: int, c: int)
    requires GridAllowed(rows, columns) && PlainCell(raw, rows, columns, r, c)
    ensures Prepared(raw).row == r && Prepared(raw).column == c && Placed(Prepared(raw), rows, columns)
  {
    SmallGrid(rows, columns);
    PlainNames(raw, rows, columns, r, c);
    RawDenotes(raw.address, r, c);
  }

  lemma {:induction false} PreparedArePlaced(raw: seq<Cell>, rows: nat, columns: nat, at: seq<(int, int)>)
    requires GridAllowed(rows, columns) && PlainTable(raw, rows, columns, at)
    ensures AllPlaced(PreparedAll(raw), rows, columns)
  {
    var cells := PreparedAll(raw);
    forall i | 0 <= i < |cells|
      ensures Placed(cells[i], rows, columns) && cells[i].row == at[i].0 && cells[i].column == at[i].1
    {
      PlacedWhere(raw[i], rows, columns, at[i].0, at[i].1);
    }
    forall r, c | Grid(rows, columns).Holds(r, c) ensures exists i: nat :: StandsAt(cells, i, r, c) {
      var i: nat :| i < |at| && at[i] == (r, c);
      assert StandsAt(cells, i, r, c);
    }
  }

  // ----- acceptance -----

  lemma {:induction false} PlacedAreNamed(cells: seq<Cell>, rows: nat, columns: nat)
    requires GridAllowed(rows, columns) && AllPlaced(cells, rows, columns)
    ensures WellNamed(cells) && InLongRange(cells)
  {
    SmallGrid(rows, columns);
    forall i | 0 <= i < |cells|
      ensures Named(cells[i]) && cells[i].Rect().Bottom() <= rows && cells[i].Rect().Right() <= columns
    {
      assert Placed(cells[i], rows, columns);
      NameDenotes(cells[i].row, cells[i].column);
    }
    forall i, j | 0 <= i < j < |cells| ensures cells[i].address != cells[j].address {
      NamesDiffer(cells, rows, columns, i, j);
    }
  }

  lemma {:induction false} NamesDiffer(cells: seq<Cell>, rows: nat, columns: nat, i: nat, j: nat)
    requires GridAllowed(rows, columns) && AllPlaced(cells, rows, columns) && i < j < |cells|
    ensures cells[i].address != cells[j].address
  {
    SmallGrid(rows, columns);
    assert Placed(cells[i], rows, columns) && Placed(cells[j], rows, columns);
    NameDenotes(cells[i].row, cells[i].column);
    NameDenotes(cells[j].row, cells[j].column);
  }

  lemma {:induction false} PlacedTile(cells: seq<Cell>, rows: nat, columns: nat)
    requires AllPlaced(cells, rows, columns)
    ensures Tiles(Rects(cells), Grid(rows, columns))
  {
    var rects := Rects(cells);
    forall i | 0 <= i < |rects| ensures rects[i].Proper() && Inside(rects[i], Grid(rows, columns)) {
      assert Placed(cells[i], rows, columns);
    }
    forall i, j | 0 <= i < j < |rects| ensures !Intersects(rects[i], rects[j]) {
      assert Placed(cells[i], rows, columns) && Placed(cells[j], rows, columns);
    }
    forall r, c | Grid(rows, columns).Holds(r, c) ensures exists i :: 0 <= i < |rects| && rects[i].Holds(r, c) {
      var i: nat :| StandsAt(cells, i, r, c);
      assert Placed(cells[i], rows, columns) && rects[i].Holds(r, c);
    }
  }

  lemma {:induction false} PlacedExtent(cells: seq<Cell>, rows: nat, columns: nat, n: nat)
    requires n <= |cells| && forall i :: 0 <= i < n ==> Placed(cells[i], rows, columns)
    ensures MaxBottom(cells[..n]) <= rows && MaxRight(cells[..n]) <= columns
  {
    if n > 0 {
      PlacedExtent(cells, rows, columns, n - 1);
      assert cells[..n][..n - 1] == cells[..n - 1] && cells[..n][n - 1] == cells[n - 1];
      assert Placed(cells[n - 1], rows, columns);
    }
  }

  lemma {:induction false} PlacedMeasure(cells: seq<Cell>, rows: nat, columns: nat)
    requires AllPlaced(cells, rows, columns) && rows >= 1 && columns >= 1
    ensures cells != [] && MaxBottom(cells) == rows && MaxRight(cells) == columns
  {
    PlacedExtent(cells, rows, columns, |cells|);
    assert cells[..|cells|] == cells;
    MaxBounds(cells);
    assert Grid(rows, columns).Holds(rows, columns);
    var i: nat :| StandsAt(cells, i, rows, columns);
    assert Placed(cells[i], rows, columns);
  }

  /** The neighbour of a cell stands in the next slot. */
  lemma {:induction false} NextSlot(cells: seq<Cell>, rows: nat, columns: nat, i: nat, direction: Direction)
    returns (j: nat)
    requires AllPlaced(cells, rows, columns) && i < |cells| && cells[i].Neighbour(direction) != ""
    ensures j < |cells| && j != i && cells[j].address == cells[i].Neighbour(direction)
    ensures StandsAt(cells, j, if direction == ToRight then cells[i].row else cells[i].row + 1,
                     if direction == ToRight then cells[i].column + 1 else cells[i].column)
    ensures Adjoins(cells[i], cells[j], direction)
  {
    assert Placed(cells[i], rows, columns);
    var r := if direction == ToRight then cells[i].row else cells[i].row + 1;
    var c := if direction == ToRight then cells[i].column + 1 else cells[i].column;
    assert Grid(rows, columns).Holds(r, c);
    j :| StandsAt(cells, j, r, c);
    assert Placed(cells[j], rows, columns);
  }

  lemma {:induction false} PlacedLinked(cells: seq<Cell>, rows: nat, columns: nat)
    requires AllPlaced(cells, rows, columns)
    ensures Linked(cells)
  {
    forall i, direction: Direction | 0 <= i < |cells| ensures LinkOk(cells, i, direction) {
      if cells[i].Neighbour(direction) != "" {
        var j := NextSlot(cells, rows, columns, i, direction);
      }
    }
  }

  /** Every plain table within the slot limit is accepted, whatever the order and the case its cells come in. */
  lemma {:induction false} PlainTableIsAccepted(raw: seq<Cell>, rows: nat, columns: nat, at: seq<(int, int)>)
    requires GridAllowed(rows, columns) && PlainTable(raw, rows, columns, at)
    ensures Acceptable(raw) && AllPlaced(PreparedAll(raw), rows, columns)
  {
    var cells := PreparedAll(raw);
    SmallGrid(rows, columns);
    PreparedArePlaced(raw, rows, columns, at);
    PlacedMeasure(cells, rows, columns);
    PlacedAreNamed(cells, rows, columns);
    PlacedTile(cells, rows, columns);
    PlacedLinked(cells, rows, columns);
  }

  // ----- merging on it -----

  lemma {:induction false} PlacedUnstraddled(cells: seq<Cell>, rows: nat, columns: nat, area: Rect)
    requires AllPlaced(cells, rows, columns)
    ensures Unstraddled(cells, area)
  {
    forall i | 0 <= i < |cells| && Intersects(cells[i].Rect(), area) ensures Inside(cells[i].Rect(), area) {
      assert Placed(cells[i], rows, columns);
    }
  }

  /** Each step of a chain moves one slot to the right or down. */
  lemma {:induction false} ChainRises(cells: seq<Cell>, byAddress: map<string, nat>, rows: nat, columns: nat,
                                      area: Rect, start: nat, path: seq<Step>) returns (end: nat)
    requires AllPlaced(cells, rows, columns) && Indexed(cells, byAddress) && start < |cells|
    requires IsChain(LinksIn(cells, byAddress, area), cells[start].address, path)
    ensures end < |cells| && cells[end].address == Last(cells[start].address, path)
    ensures cells[end].row + cells[end].column == cells[start].row + cells[start].column + |path|
  {
    if path == [] {
      end := start;
    } else {
      var init, last := path[..|path| - 1], path[|path| - 1];
      var before := ChainRises(cells, byAddress, rows, columns, area, start, init);
      assert Edge(LinksIn(cells, byAddress, area), cells[before].address, last.direction, last.destination);
      assert byAddress[cells[before].address] == before;
      end := NextSlot(cells, rows, columns, before, last.direction);
    }
  }

  lemma {:induction false} ChainStep(cells: seq<Cell>, byAddress: map<string, nat>, rows: nat, columns: nat,
                                     area: Rect, first: string, path: seq<Step>, i: nat, direction: Direction, j: nat)
    requires Indexed(cells, byAddress) && i < |cells| && j < |cells|
    requires IsChain(LinksIn(cells, byAddress, area), first, path) && Last(first, path) == cells[i].address
    requires cells[i].Neighbour(direction) == cells[j].address != "" && Intersects(cells[j].Rect(), area)
    ensures IsChain(LinksIn(cells, byAddress, area), first, path + [Step(direction, cells[j].address)])
  {
    var longer := path + [Step(direction, cells[j].address)];
    assert longer[..|longer| - 1] == path;
    AddressKept(cells, area, j);
  }

  lemma {:induction false} SlotsDiffer(cells: seq<Cell>, rows: nat, columns: nat, i: nat, j: nat)
    requires AllPlaced(cells, rows, columns) && i < |cells| && j < |cells| && i != j
    ensures cells[i].row != cells[j].row || cells[i].column != cells[j].column
  {
    var low, high := if i < j then i else j, if i < j then j else i;
    assert cells[low].row != cells[high].row || cells[low].column != cells[high].column;
  }

  /** From the corner of an area any of its slots is reached by going right, and then down. */
  lemma {:induction false} DirectChain(cells: seq<Cell>, byAddress: map<string, nat>, rows: nat, columns: nat,
                                       area: Rect, start: nat, end: nat) returns (path: seq<Step>)
    requires AllPlaced(cells, rows, columns) && Indexed(cells, byAddress) && start < |cells| && end < |cells|
    requires area.Proper() && StandsAt(cells, start, area.row, area.column)
    requires area.Holds(cells[end].row, cells[end].column)
    ensures IsChain(LinksIn(cells, byAddress, area), cells[start].address, path)
    ensures Last(cells[start].address, path) == cells[end].address
    decreases cells[end].row + cells[end].column
  {
    var r, c := cells[end].row, cells[end].column;
    assert Placed(cells[start], rows, columns) && Placed(cells[end], rows, columns);
    if start == end {
      path := [];
    } else {
      assert r != area.row || c != area.column by { SlotsDiffer(cells, rows, columns, start, end); }
      var direction := if r > area.row then Downward else ToRight;
      var i := PreviousSlot(cells, rows, columns, area, end, direction);
      path := DirectChain(cells, byAddress, rows, columns, area, start, i);
      ChainStep(cells, byAddress, rows, columns, area, cells[start].address, path, i, direction, end);
      path := path + [Step(direction, cells[end].address)];
    }
  }

  lemma {:induction false} PreviousSlot(cells: seq<Cell>, rows: nat, columns: nat, area: Rect, end: nat,
                                        direction: Direction) returns (i: nat)
    requires AllPlaced(cells, rows, columns) && end < |cells|
    requires area.row >= 1 && area.column >= 1 && area.Holds(cells[end].row, cells[end].column)
    requires if direction == Downward then cells[end].row > area.row else cells[end].column > area.column
    ensures i < |cells| && area.Holds(cells[i].row, cells[i].column)
    ensures cells[i].Neighbour(direction) == cells[end].address != "" && Intersects(cells[end].Rect(), area)
    ensures cells[i].row + cells[i].column == cells[end].row + cells[end].column - 1
    ensures cells[i].row >= 1 && cells[i].column >= 1
  {
    var r := if direction == Downward then cells[end].row - 1 else cells[end].row;
    var c := if direction == Downward then cells[end].column else cells[end].column - 1;
    assert Placed(cells[end], rows, columns);
    assert Grid(rows, columns).Holds(r, c);
    i :| StandsAt(cells, i, r, c);
    assert Placed(cells[i], rows, columns);
  }

  /** On a plain table two different cells, the second not above or to the left of the first, can always be merged;
      and the path has a step for each row and each column between them. */
  lemma {:induction false} PlainMerge(
    cells: seq<Cell>, byAddress: map<string, nat>, rows: nat, columns: nat, start: nat, end: nat,
    error: Option<PlanError>, path: seq<Step>, region: seq<string>)
    requires AllPlaced(cells, rows, columns) && Indexed(cells, byAddress)
    requires Forward(cells, Some(start), Some(end)) && start != end
    requires MergeOutcome(cells, byAddress, Some(start), Some(end), error, path, region)
    ensures error == None
    ensures |path| == cells[end].row - cells[start].row + (cells[end].column - cells[start].column)
  {
    var area := SpanOf(cells[start], cells[end]);
    assert Placed(cells[start], rows, columns) && Placed(cells[end], rows, columns);
    PlacedUnstraddled(cells, rows, columns, area);
    var direct := DirectChain(cells, byAddress, rows, columns, area, start, end);
    assert error == None;
    var last := ChainRises(cells, byAddress, rows, columns, area, start, path);
    assert byAddress[cells[last].address] == last && byAddress[cells[end].address] == end;
  }
}
