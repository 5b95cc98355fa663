/** The physical topology of one table: its cells, an address index and an owner per slot. */
module CellTopology {
  import opened Options
  import opened Counting
  import opened Geometry
  import opened CellAddress
  import opened TableGrid
  import opened TopologyBuild
  import opened NeighbourPaths
  import opened Regions
  import opened TablePlans
  import opened SelectionPlans
  import opened ColumnStacks

  class CellTopology {
    var cells: seq<Cell>
    var byAddress: map<string, nat>
    var ownerBySlot: seq<int>
    var rows: nat
    var columns: nat

    /** Either cleared, or holding an accepted table. */
    ghost predicate Valid()
      reads this
    {
      Cleared() || Built(cells, byAddress, ownerBySlot, rows, columns)
    }

    ghost predicate Cleared()
      reads this
    {
      cells == [] && byAddress == map[] && ownerBySlot == [] && rows == 0 && columns == 0
    }

    constructor ()
      ensures Valid() && Cleared()
    {
      cells, byAddress, ownerBySlot, rows, columns := [], map[], [], 0, 0;
    }

    /** Replaces the topology by the given cells if they form an acceptable table, and
        otherwise leaves the object exactly as it was. */
    method Build(raw: seq<Cell>) returns (error: Option<BuildError>)
      modifies this
      ensures error.None? <==> Acceptable(raw)
      ensures error.None? ==> cells == PreparedAll(raw) && Built(cells, byAddress, ownerBySlot, rows, columns)
      ensures error.None? ==> AreRawCells(cells, raw)
      ensures error.None? ==> rows == MaxBottom(cells) && columns == MaxRight(cells)
      ensures error.Some? ==> unchanged(this)
    {
      var newCells, newByAddress, newOwners, newRows, newColumns;
      error, newCells, newByAddress, newOwners, newRows, newColumns := Examine(raw);
      if error.Some? {
        return;
      }
      cells, byAddress, ownerBySlot, rows, columns := newCells, newByAddress, newOwners, newRows, newColumns;
    }

    method Clear()
      modifies this
      ensures Valid() && Cleared()
    {
      cells, byAddress, ownerBySlot, rows, columns := [], map[], [], 0, 0;
    }

    /** Position of the cell with the given address, in either case. */
    function Find(raw: string): (found: Option<nat>)
      reads this
      requires Valid()
      ensures found.Some? ==> found.value < |cells| && cells[found.value].address == Normalize(raw)
      ensures found.None? ==> forall i :: 0 <= i < |cells| ==> cells[i].address != Normalize(raw)
    {
      var address := Normalize(raw);
      if address in byAddress then Some(byAddress[address]) else None
    }

    /** Owner of a slot: present for exactly the slots of the grid, and then the one cell that covers it. */
    function OwnerAt(row: int, column: int): (owner: Option<nat>)
      reads this
      requires Valid()
      ensures owner.Some? <==> 1 <= row <= rows && 1 <= column <= columns
      ensures owner.Some? ==> owner.value < |cells| && cells[owner.value].Rect().Holds(row, column)
      ensures owner.Some? ==> forall i :: 0 <= i < |cells| && cells[i].Rect().Holds(row, column) ==> i == owner.value
    {
      var owner := OwnerIn(cells, ownerBySlot, rows, columns, row, column);
      if cells == [] then owner
      else
        OwnerInCorrect(cells, ownerBySlot, rows, columns, row, column);
        owner
    }

    /** Forgets every measured size and keeps everything else. */
    method InvalidateGeometry()
      requires Valid()
      modifies this`cells
      ensures Valid()
      ensures |cells| == |old(cells)|
      ensures forall i :: 0 <= i < |cells| ==> cells[i] == old(cells)[i].(width := -1, height := -1)
    {
      var measured := cells;
      cells := seq(|measured|, i requires 0 <= i < |measured| => measured[i].(width := -1, height := -1));
      if measured != [] {
        SizesDoNotMatter(measured, cells, byAddress, ownerBySlot, rows, columns);
      }
    }

    /** Address by address, where a cell lies and how large it is. */
    ghost function Shape(): map<string, Rect>
      reads this
      requires Valid()
    {
      ShapeOf(cells, byAddress)
    }

    /** Two topologies have the same physical shape when they have the same extent and the same cells.
        The comparison looks one way only, which equal cell counts make enough. */
    method HasSamePhysicalShape(other: CellTopology) returns (same: bool)
      requires Valid() && other.Valid()
      ensures same <==> rows == other.rows && columns == other.columns && Shape() == other.Shape()
    {
      same := rows == other.rows && columns == other.columns;
      if same {
        same := SameCells(cells, byAddress, other.cells, other.byAddress);
      }
    }

    /** The addresses of the cells that meet a column, which on a built topology stack without gap. */
    method IntersectingColumn(column: int) returns (addresses: seq<string>, ghost sorted: seq<Cell>)
      requires Valid()
      ensures ListsColumn(cells, column, addresses)
      ensures addresses == Addresses(sorted) && SortedByPosition(sorted)
      ensures multiset(sorted) == multiset(Meeting(cells, column))
      ensures 1 <= column <= columns ==> Stacked(sorted, rows)
    {
      var found := ColumnCells(cells, column);
      sorted := found;
      addresses := Addresses(found);
      if 1 <= column <= columns {
        assert rows >= 1 by { GridIsPositive(rows, columns); }
        ColumnIsStacked(cells, rows, columns, column, sorted);
      }
    }

    method PlanRectangularMerge(first: string, second: string)
      returns (error: Option<PlanError>, path: seq<Step>, region: seq<string>)
      requires Valid()
      ensures Indexed(cells, byAddress)
      ensures MergeOutcome(cells, byAddress, Find(first), Find(second), error, path, region)
    {
      ValidIsPlannable();
      error, path, region := PlanMerge(cells, byAddress, rows, columns, first, second);
    }

    /** Selection between two cells given by list id. */
    method PlanSelectionByListId(firstId: int, secondId: int)
      returns (error: Option<PlanError>, firstAddress: string, lastAddress: string,
               path: seq<Step>, region: seq<string>, ghost chosen: seq<Cell>, ghost area: Rect)
      requires Valid()
      ensures Indexed(cells, byAddress)
      ensures ListIdOutcome(cells, byAddress, firstId, secondId, error, firstAddress, lastAddress, path, region)
      ensures error.None? ==> SoleCells(cells, firstId, secondId, chosen)
      ensures error.None? ==> SelectionPlan(cells, byAddress, chosen, area, firstAddress, lastAddress, path, region)
    {
      ValidIsPlannable();
      error, firstAddress, lastAddress, path, region, chosen, area :=
        PlanByListId(cells, byAddress, rows, columns, firstId, secondId);
    }

    /** Selection of any number of cells given by address. */
    method PlanSelectionByAddress(selected: seq<string>)
      returns (error: Option<PlanError>, firstAddress: string, lastAddress: string,
               path: seq<Step>, region: seq<string>, ghost chosen: seq<Cell>, ghost area: Rect)
      requires Valid()
      ensures Indexed(cells, byAddress)
      ensures AddressOutcome(cells, byAddress, selected, error, firstAddress, lastAddress, path, region)
      ensures error.None? ==> Looked(cells, byAddress, selected, chosen)
      ensures error.None? ==> SelectionPlan(cells, byAddress, chosen, area, firstAddress, lastAddress, path, region)
    {
      ValidIsPlannable();
      error, firstAddress, lastAddress, path, region, chosen, area :=
        PlanByAddress(cells, byAddress, rows, columns, selected);
    }

    lemma {:induction false} ValidIsPlannable()
      requires Valid()
      ensures Plannable(cells, byAddress, rows, columns)
    {
    }
  }

  /** The addresses of the cells that meet the column, each once, in reading order. */
  ghost predicate ListsColumn(cells: seq<Cell>, column: int, addresses: seq<string>) {
    exists sorted ::
      addresses == Addresses(sorted) && SortedByPosition(sorted) && multiset(sorted) == multiset(Meeting(cells, column))
  }

  ghost function ShapeOf(cells: seq<Cell>, byAddress: map<string, nat>): map<string, Rect>
    requires Indexed(cells, byAddress)
  {
    map a | a in byAddress :: cells[byAddress[a]].Rect()
  }

  ghost predicate FoundAlike(cell: Cell, others: seq<Cell>, byAddress: map<string, nat>) {
    && cell.address in byAddress && byAddress[cell.address] < |others|
    && others[byAddress[cell.address]].Rect() == cell.Rect()
  }

  lemma {:induction false} AlikeDecides(
    cells: seq<Cell>, byAddress: map<string, nat>, others: seq<Cell>, othersByAddress: map<string, nat>)
    requires Indexed(cells, byAddress) && Indexed(others, othersByAddress)
    ensures ShapeOf(cells, byAddress) == ShapeOf(others, othersByAddress) <==>
            |cells| == |others| && forall i :: 0 <= i < |cells| ==> FoundAlike(cells[i], others, othersByAddress)
  {
    IndexSize(cells, byAddress);
    IndexSize(others, othersByAddress);
    var mine, theirs := ShapeOf(cells, byAddress), ShapeOf(others, othersByAddress);
    assert mine.Keys == byAddress.Keys && theirs.Keys == othersByAddress.Keys;
    if mine == theirs {
      forall i | 0 <= i < |cells| ensures FoundAlike(cells[i], others, othersByAddress) {
        assert cells[i].address in mine && mine[cells[i].address] == cells[i].Rect();
      }
    }
    if |cells| == |others| && forall i :: 0 <= i < |cells| ==> FoundAlike(cells[i], others, othersByAddress) {
      forall a | a in byAddress ensures a in othersByAddress && mine[a] == theirs[a] {
        assert FoundAlike(cells[byAddress[a]], others, othersByAddress);
      }
      SubsetCount(byAddress.Keys, othersByAddress.Keys);
    }
  }

  /** Compares cell counts, then looks every cell up on the other side. */
  method SameCells(cells: seq<Cell>, byAddress: map<string, nat>, others: seq<Cell>, othersByAddress: map<string, nat>)
    returns (same: bool)
    requires Indexed(cells, byAddress) && Indexed(others, othersByAddress)
    requires forall i :: 0 <= i < |cells| ==> Named(cells[i])
    ensures same <==> ShapeOf(cells, byAddress) == ShapeOf(others, othersByAddress)
  {
    AlikeDecides(cells, byAddress, others, othersByAddress);
    if |cells| != |others| {
      return false;
    }
    same := AllAlike(cells, others, othersByAddress);
  }

  ghost predicate AllFound(cells: seq<Cell>, n: nat, others: seq<Cell>, byAddress: map<string, nat>)
    requires n <= |cells|
  {
    forall i :: 0 <= i < n ==> FoundAlike(cells[i], others, byAddress)
  }

  lemma {:induction false} FoundNext(cells: seq<Cell>, n: nat, others: seq<Cell>, byAddress: map<string, nat>)
    requires n < |cells| && AllFound(cells, n, others, byAddress)
    ensures AllFound(cells, n + 1, others, byAddress) <==> FoundAlike(cells[n], others, byAddress)
    ensures AllFound(cells, |cells|, others, byAddress) ==> FoundAlike(cells[n], others, byAddress)
  {
  }

  method AllAlike(cells: seq<Cell>, others: seq<Cell>, byAddress: map<string, nat>) returns (alike: bool)
    requires forall i :: 0 <= i < |cells| ==> Named(cells[i])
    requires forall a :: a in byAddress ==> byAddress[a] < |others|
    ensures alike <==> AllFound(cells, |cells|, others, byAddress)
  {
    for index := 0 to |cells|
      invariant AllFound(cells, index, others, byAddress)
    {
      alike := LookUpAlike(cells[index], others, byAddress);
      FoundNext(cells, index, others, byAddress);
      if !alike {
        return;
      }
    }
    alike := true;
  }

  method LookUpAlike(cell: Cell, others: seq<Cell>, byAddress: map<string, nat>) returns (alike: bool)
    requires Named(cell) && forall a :: a in byAddress ==> byAddress[a] < |others|
    ensures alike <==> FoundAlike(cell, others, byAddress)
  {
    var candidate := FindIn(byAddress, cell.address);
    alike := candidate.Some? && cell.Rect() == others[candidate.value].Rect();
  }

  lemma {:induction false} GridIsPositive(rows: nat, columns: nat)
    requires GridAllowed(rows, columns)
    ensures rows >= 1 && columns >= 1
  {
  }

  lemma {:induction false} IndexSize(cells: seq<Cell>, byAddress: map<string, nat>)
    requires Indexed(cells, byAddress)
    ensures |byAddress| == |byAddress.Keys| == |cells|
  {
    var addresses := Addresses(cells);
    forall i, j | 0 <= i < j < |addresses| ensures addresses[i] != addresses[j] {
      assert byAddress[cells[i].address] == i && byAddress[cells[j].address] == j;
    }
    DistinctIffSize(addresses);
    assert byAddress.Keys == set a | a in addresses by {
      forall a | a in byAddress ensures a in addresses { assert addresses[byAddress[a]] == a; }
    }
  }

  /** Measured sizes play no part in what makes a topology. */
  lemma {:induction false} SizesDoNotMatter(
    measured: seq<Cell>, cells: seq<Cell>, byAddress: map<string, nat>, owners: seq<int>, rows: nat, columns: nat)
    requires Built(measured, byAddress, owners, rows, columns) && |cells| == |measured|
    requires forall i :: 0 <= i < |cells| ==> cells[i] == measured[i].(width := -1, height := -1)
    ensures Built(cells, byAddress, owners, rows, columns)
  {
    assert Rects(cells) == Rects(measured);
    SameLinks(measured, cells);
    forall i | 0 <= i < |cells| ensures Named(cells[i]) && cells[i].Rect().Proper() {
      assert Named(measured[i]) && measured[i].Rect().Proper();
    }
  }

  lemma {:induction false} SameLinks(measured: seq<Cell>, cells: seq<Cell>)
    requires Linked(measured) && |cells| == |measured|
    requires forall i :: 0 <= i < |cells| ==> cells[i] == measured[i].(width := -1, height := -1)
    ensures Linked(cells)
  {
    forall i, direction: Direction | 0 <= i < |cells| ensures LinkOk(cells, i, direction) {
      assert LinkOk(measured, i, ToRight) && LinkOk(measured, i, Downward);
      assert LinkOk(measured, i, direction);
    }
  }
}
