/** Growing a selection of cells to a rectangle that no merged cell straddles. */
module SelectionPlans {
  import opened Options
  import opened Geometry
  import opened CellAddress
  import opened TableGrid
  import opened NeighbourPaths
  import opened Regions
  import opened TablePlans

  /** A planned selection: its rectangle is the smallest closed one around the chosen cells, its region is exactly
      the cells inside, and its path leads from the first to the last corner cell. */
  ghost predicate SelectionPlan(
    cells: seq<Cell>, byAddress: map<string, nat>, chosen: seq<Cell>, area: Rect,
    firstAddress: string, lastAddress: string, path: seq<Step>, region: seq<string>)
    requires Indexed(cells, byAddress)
  {
    && Smallest(cells, chosen, area)
    && region == Addresses(Within(cells, area))
    && firstAddress in byAddress && lastAddress in byAddress
    && area == SpanOf(cells[byAddress[firstAddress]], cells[byAddress[lastAddress]])
    && BestPath(cells, byAddress, area, firstAddress, lastAddress, path)
  }

  /** The cells named by a region are those inside the rectangle, no more and no fewer. */
  lemma {:induction false} RegionIsInside(cells: seq<Cell>, grid: Rect, area: Rect)
    requires Tiles(Rects(cells), grid) && Unstraddled(cells, area)
    requires area.Proper()
    ensures forall i :: 0 <= i < |cells| ==> (cells[i] in Within(cells, area) <==> Inside(cells[i].Rect(), area))
  {
    WithinMembers(cells, area);
    assert forall i :: 0 <= i < |cells| ==> Rects(cells)[i].Proper();
  }

  // ----- corners -----

  ghost predicate OwnsSlot(cells: seq<Cell>, owner: Option<nat>, r: int, c: int) {
    match owner
    case Some(i) => i < |cells| && cells[i].Rect().Holds(r, c)
    case None => forall i :: 0 <= i < |cells| ==> !cells[i].Rect().Holds(r, c)
  }

  /** Scans for the cells that cover the two corners of a box. */
  method FindCorners(cells: seq<Cell>, box: Rect) returns (upperLeft: Option<nat>, lowerRight: Option<nat>)
    ensures OwnsSlot(cells, upperLeft, box.row, box.column)
    ensures OwnsSlot(cells, lowerRight, box.Bottom(), box.Right())
  {
    upperLeft, lowerRight := None, None;
    for index := 0 to |cells|
      invariant OwnsSlot(cells[..index], upperLeft, box.row, box.column)
      invariant OwnsSlot(cells[..index], lowerRight, box.Bottom(), box.Right())
    {
      if cells[index].Rect().Holds(box.row, box.column) {
        upperLeft := Some(index);
      }
      if cells[index].Rect().Holds(box.Bottom(), box.Right()) {
        lowerRight := Some(index);
      }
    }
    assert cells[..|cells|] == cells;
  }

  /** On an exact cover, a box of cells always has both corners covered. */
  lemma {:induction false} CornersCovered(cells: seq<Cell>, grid: Rect, chosen: seq<Cell>, box: Rect)
    requires Tiles(Rects(cells), grid) && BoundingBox(chosen, box)
    requires forall i :: 0 <= i < |chosen| ==> chosen[i] in cells
    ensures !OwnsSlot(cells, None, box.row, box.column) && !OwnsSlot(cells, None, box.Bottom(), box.Right())
  {
    var rects := Rects(cells);
    forall i | 0 <= i < |chosen| ensures Inside(chosen[i].Rect(), grid) {
      var k :| 0 <= k < |cells| && cells[k] == chosen[i];
      assert Inside(rects[k], grid);
    }
    BoxForced(chosen, box, grid);
    assert grid.Holds(box.row, box.column) && grid.Holds(box.Bottom(), box.Right());
    var i :| 0 <= i < |rects| && rects[i].Holds(box.row, box.column);
    var j :| 0 <= j < |rects| && rects[j].Holds(box.Bottom(), box.Right());
    assert cells[i].Rect().Holds(box.row, box.column) && cells[j].Rect().Holds(box.Bottom(), box.Right());
  }

  method CoveredCorners(cells: seq<Cell>, ghost grid: Rect, ghost chosen: seq<Cell>, box: Rect)
    returns (upperLeft: Option<nat>, lowerRight: Option<nat>)
    requires Tiles(Rects(cells), grid) && BoundingBox(chosen, box)
    requires forall i :: 0 <= i < |chosen| ==> chosen[i] in cells
    ensures upperLeft.Some? && OwnsSlot(cells, upperLeft, box.row, box.column)
    ensures lowerRight.Some? && OwnsSlot(cells, lowerRight, box.Bottom(), box.Right())
  {
    CornersCovered(cells, grid, chosen, box);
    upperLeft, lowerRight := FindCorners(cells, box);
  }

  /** How a selection is decided from its corner owners: one cell by itself, or a merge of the two. */
  ghost predicate CornerCase(cells: seq<Cell>, byAddress: map<string, nat>, upperLeft: nat, lowerRight: nat,
                             error: Option<PlanError>, path: seq<Step>, region: seq<string>)
    requires Indexed(cells, byAddress) && upperLeft < |cells|
  {
    if upperLeft == lowerRight then error.None? && path == [] && region == [cells[upperLeft].address]
    else MergeOutcome(cells, byAddress, Some(upperLeft), Some(lowerRight), error, path, region)
  }

  ghost predicate CornersAt(cells: seq<Cell>, box: Rect, upperLeft: nat, lowerRight: nat) {
    OwnsSlot(cells, Some(upperLeft), box.row, box.column) &&
    OwnsSlot(cells, Some(lowerRight), box.Bottom(), box.Right())
  }

  /** The outcome for a box: decided from the cells that own its corners. */
  ghost predicate BoxOutcome(cells: seq<Cell>, byAddress: map<string, nat>, box: Rect, error: Option<PlanError>,
                             firstAddress: string, lastAddress: string, path: seq<Step>, region: seq<string>)
    requires Indexed(cells, byAddress)
  {
    exists upperLeft: nat, lowerRight: nat ::
      CornersAt(cells, box, upperLeft, lowerRight) && firstAddress == cells[upperLeft].address &&
      lastAddress == cells[lowerRight].address &&
      CornerCase(cells, byAddress, upperLeft, lowerRight, error, path, region)
  }

  /** Plans from the two corner owners: a single cell by itself, otherwise a merge of the rectangle they span. */
  method PlanCorners(cells: seq<Cell>, byAddress: map<string, nat>, ghost rows: nat, ghost columns: nat,
                     ghost chosen: seq<Cell>, ghost box: Rect, upperLeft: nat, lowerRight: nat)
    returns (error: Option<PlanError>, path: seq<Step>, region: seq<string>)
    requires Plannable(cells, byAddress, rows, columns) && BoundingBox(chosen, box)
    requires upperLeft < |cells| && cells[upperLeft].Rect().Holds(box.row, box.column)
    requires lowerRight < |cells| && cells[lowerRight].Rect().Holds(box.Bottom(), box.Right())
    ensures error.None? ==>
      SelectionPlan(cells, byAddress, chosen, SpanOf(cells[upperLeft], cells[lowerRight]),
                    cells[upperLeft].address, cells[lowerRight].address, path, region)
    ensures CornerCase(cells, byAddress, upperLeft, lowerRight, error, path, region)
  {
    var first, last := cells[upperLeft], cells[lowerRight];
    assert Named(first) && Named(last);
    if upperLeft == lowerRight {
      SingleCellPlan(cells, byAddress, Grid(rows, columns), upperLeft);
      SpanSmallest(cells, chosen, box, upperLeft, lowerRight);
      return None, [], [first.address];
    }
    error, path, region := PlanMerge(cells, byAddress, rows, columns, first.address, last.address);
    if error.None? {
      SpanSmallest(cells, chosen, box, upperLeft, lowerRight);
    }
  }

  lemma {:induction false} SingleCellPlan(cells: seq<Cell>, byAddress: map<string, nat>, grid: Rect, i: nat)
    requires i < |cells| && Indexed(cells, byAddress) && Tiles(Rects(cells), grid)
    ensures
      var area := SpanOf(cells[i], cells[i]);
      && Unstraddled(cells, area) && [cells[i].address] == Addresses(Within(cells, area))
      && BestPath(cells, byAddress, area, cells[i].address, cells[i].address, [])
  {
    var rects := Rects(cells);
    assert SpanOf(cells[i], cells[i]) == rects[i];
    forall j | 0 <= j < |cells| && Intersects(cells[j].Rect(), rects[i]) ensures j == i {
      SoleIntersection(cells, i, j);
    }
    SoleWithin(cells, i);
  }

  lemma {:induction false} SoleWithin(cells: seq<Cell>, i: nat)
    requires i < |cells| && cells[i].Rect().Proper() && Disjoint(Rects(cells))
    ensures Within(cells, cells[i].Rect()) == [cells[i]]
    decreases |cells|
  {
    var area, n := cells[i].Rect(), |cells| - 1;
    var init := cells[..n];
    if i == n {
      NothingWithin(init, area) by {
        forall j | 0 <= j < n ensures !Intersects(init[j].Rect(), area) {
          assert !Intersects(Rects(cells)[j], Rects(cells)[n]);
        }
      }
    } else {
      assert Disjoint(Rects(init)) by {
        assert forall j :: 0 <= j < n ==> Rects(init)[j] == Rects(cells)[j];
      }
      SoleWithin(init, i);
      assert !Intersects(Rects(cells)[i], Rects(cells)[n]);
    }
  }

  lemma {:induction false} NothingWithin(cells: seq<Cell>, area: Rect)
    requires forall j :: 0 <= j < |cells| ==> !Intersects(cells[j].Rect(), area)
    ensures Within(cells, area) == []
  {
    WithinMembers(cells, area);
    assert |Within(cells, area)| > 0 ==> Within(cells, area)[0] in Within(cells, area);
  }

  // ----- selection by the list ids of two cells -----

  /** `i` is the one cell with the list id, or there is none. */
  ghost predicate Sole(cells: seq<Cell>, id: int, i: Option<nat>) {
    match i
    case Some(k) =>
      k < |cells| && cells[k].listId == id && forall j :: 0 <= j < |cells| && cells[j].listId == id ==> j == k
    case None => forall j :: 0 <= j < |cells| ==> cells[j].listId != id
  }

  ghost predicate Repeated(cells: seq<Cell>, id: int) {
    exists i, j :: 0 <= i < j < |cells| && cells[i].listId == id && cells[j].listId == id
  }

  method FindEndpoints(cells: seq<Cell>, firstId: int, secondId: int)
    returns (error: Option<PlanError>, first: Option<nat>, second: Option<nat>)
    ensures error.None? ==> Sole(cells, firstId, first) && Sole(cells, secondId, second)
    ensures error.Some? ==>
      || (error.value == StartAmbiguous && Repeated(cells, firstId))
      || (error.value == EndAmbiguous && Repeated(cells, secondId))
    ensures error.None? ==> !Repeated(cells, firstId) && !Repeated(cells, secondId)
  {
    first, second := None, None;
    for index := 0 to |cells|
      invariant Sole(cells[..index], firstId, first) && Sole(cells[..index], secondId, second)
    {
      if cells[index].listId == firstId {
        if first.Some? {
          return Some(StartAmbiguous), first, second;
        }
        first := Some(index);
      }
      if cells[index].listId == secondId {
        if second.Some? {
          return Some(EndAmbiguous), first, second;
        }
        second := Some(index);
      }
    }
    assert cells[..|cells|] == cells;
    error := None;
  }

  function Min(a: int, b: int): int { if a < b then a else b }

  function BoxOfTwo(a: Cell, b: Cell): Rect {
    Span(Min(a.row, b.row), Min(a.column, b.column),
         Max(a.Rect().Bottom(), b.Rect().Bottom()), Max(a.Rect().Right(), b.Rect().Right()))
  }

  lemma {:induction false} BoxOfTwoBounds(a: Cell, b: Cell)
    requires a.Rect().Proper() && b.Rect().Proper()
    ensures BoundingBox([a, b], BoxOfTwo(a, b))
  {
    var chosen := [a, b];
    var box := BoxOfTwo(a, b);
    var i, j := if a.row <= b.row then 0 else 1, if a.column <= b.column then 0 else 1;
    assert chosen[i].row == box.row && chosen[j].column == box.column;
    var k := if a.Rect().Bottom() >= b.Rect().Bottom() then 0 else 1;
    var l := if a.Rect().Right() >= b.Rect().Right() then 0 else 1;
    assert chosen[k].Rect().Bottom() == box.Bottom() && chosen[l].Rect().Right() == box.Right();
  }

  /** The outcome for two list ids: each must belong to one cell, and the box of the two decides. */
  ghost predicate ListIdOutcome(cells: seq<Cell>, byAddress: map<string, nat>, firstId: int, secondId: int,
                                error: Option<PlanError>, firstAddress: string, lastAddress: string,
                                path: seq<Step>, region: seq<string>)
    requires Indexed(cells, byAddress)
  {
    if Repeated(cells, firstId) || Repeated(cells, secondId) then
      (error == Some(StartAmbiguous) && Repeated(cells, firstId)) ||
      (error == Some(EndAmbiguous) && Repeated(cells, secondId))
    else if Sole(cells, firstId, None) || Sole(cells, secondId, None) then error == Some(EndpointsMissing)
    else
      exists i: nat, j: nat ::
        Sole(cells, firstId, Some(i)) && Sole(cells, secondId, Some(j)) &&
        BoxOutcome(cells, byAddress, BoxOfTwo(cells[i], cells[j]), error, firstAddress, lastAddress, path, region)
  }

  method PlanByListId(cells: seq<Cell>, byAddress: map<string, nat>, ghost rows: nat, ghost columns: nat,
                      firstId: int, secondId: int)
    returns (error: Option<PlanError>, firstAddress: string, lastAddress: string,
             path: seq<Step>, region: seq<string>, ghost chosen: seq<Cell>, ghost area: Rect)
    requires Plannable(cells, byAddress, rows, columns)
    ensures error.None? ==>
      SelectionPlan(cells, byAddress, chosen, area, firstAddress, lastAddress, path, region)
    ensures error.None? ==> SoleCells(cells, firstId, secondId, chosen)
    ensures ListIdOutcome(cells, byAddress, firstId, secondId, error, firstAddress, lastAddress, path, region)
    ensures error.Some? ==> error.value !in {CornersUncovered, NothingSelected, AddressMissing}
  {
    firstAddress, lastAddress, path, region, chosen, area := "", "", [], [], [], Grid(0, 0);
    var first, second;
    error, first, second := FindEndpoints(cells, firstId, secondId);
    if error.Some? {
      return;
    }
    if first.None? || second.None? {
      error := Some(EndpointsMissing);
      return;
    }
    chosen := [cells[first.value], cells[second.value]];
    error, firstAddress, lastAddress, path, region, area :=
      PlanBox(cells, byAddress, rows, columns, first.value, second.value);
    ListIdsDecided(cells, firstId, secondId, first.value, second.value);
  }

  /** Plans for two cells that have been found. */
  method PlanBox(cells: seq<Cell>, byAddress: map<string, nat>, ghost rows: nat, ghost columns: nat,
                 first: nat, second: nat)
    returns (error: Option<PlanError>, firstAddress: string, lastAddress: string,
             path: seq<Step>, region: seq<string>, ghost area: Rect)
    requires Plannable(cells, byAddress, rows, columns) && first < |cells| && second < |cells|
    ensures error.None? ==>
      SelectionPlan(cells, byAddress, [cells[first], cells[second]], area, firstAddress, lastAddress, path, region)
    ensures BoxOutcome(cells, byAddress, BoxOfTwo(cells[first], cells[second]), error, firstAddress, lastAddress,
                       path, region)
    ensures error.Some? ==> error.value !in {CornersUncovered, NothingSelected, AddressMissing}
  {
    firstAddress, lastAddress, path, region, area := "", "", [], [], Grid(0, 0);
    var box := BoxOfTwo(cells[first], cells[second]);
    ghost var chosen := [cells[first], cells[second]];
    BoxOfTwoBounds(cells[first], cells[second]);
    var upperLeft, lowerRight := CoveredCorners(cells, Grid(rows, columns), chosen, box);
    if upperLeft.None? || lowerRight.None? {
      error := Some(CornersUncovered);
      return;
    }
    firstAddress, lastAddress := cells[upperLeft.value].address, cells[lowerRight.value].address;
    area := SpanOf(cells[upperLeft.value], cells[lowerRight.value]);
    error, path, region :=
      PlanCorners(cells, byAddress, rows, columns, chosen, box, upperLeft.value, lowerRight.value);
    BoxDecided(cells, byAddress, box, upperLeft.value, lowerRight.value, error, path, region);
    CornerErrors(cells, byAddress, upperLeft.value, lowerRight.value, error, path, region);
  }

  lemma {:induction false} CornerErrors(cells: seq<Cell>, byAddress: map<string, nat>, upperLeft: nat,
                                        lowerRight: nat, error: Option<PlanError>, path: seq<Step>,
                                        region: seq<string>)
    requires Indexed(cells, byAddress) && upperLeft < |cells|
    requires CornerCase(cells, byAddress, upperLeft, lowerRight, error, path, region)
    ensures error.Some? ==> error.value !in {CornersUncovered, NothingSelected, AddressMissing}
  {
  }

  lemma {:induction false} BoxDecided(cells: seq<Cell>, byAddress: map<string, nat>, box: Rect, upperLeft: nat,
                                      lowerRight: nat, error: Option<PlanError>, path: seq<Step>, region: seq<string>)
    requires Indexed(cells, byAddress) && CornersAt(cells, box, upperLeft, lowerRight)
    requires CornerCase(cells, byAddress, upperLeft, lowerRight, error, path, region)
    ensures BoxOutcome(cells, byAddress, box, error, cells[upperLeft].address, cells[lowerRight].address, path, region)
  {
  }

  lemma {:induction false} ListIdsDecided(cells: seq<Cell>, firstId: int, secondId: int, i: nat, j: nat)
    requires Sole(cells, firstId, Some(i)) && Sole(cells, secondId, Some(j))
    ensures !Repeated(cells, firstId) && !Repeated(cells, secondId)
    ensures !Sole(cells, firstId, None) && !Sole(cells, secondId, None)
  {
  }

  // ----- selection by a list of addresses -----

  /** The cells with the given addresses, as long as every address is one. */
  ghost predicate Looked(cells: seq<Cell>, byAddress: map<string, nat>, addresses: seq<string>, chosen: seq<Cell>)
    requires Indexed(cells, byAddress)
  {
    |chosen| == |addresses| &&
    forall k :: 0 <= k < |addresses| ==>
      Normalize(addresses[k]) in byAddress && chosen[k] == cells[byAddress[Normalize(addresses[k])]]
  }

  /** The running box: the extreme values of the coordinate type before the first cell, then a bounding box. */
  ghost predicate BoundSoFar(chosen: seq<Cell>, top: int, left: int, bottom: int, right: int) {
    if chosen == [] then top == left == MAX_LONG && bottom == right == 0
    else BoundingBox(chosen, Span(top, left, bottom, right))
  }

  lemma {:induction false} ExtendBox(chosen: seq<Cell>, top: int, left: int, bottom: int, right: int, cell: Cell)
    requires cell.Rect().Proper() && BoundSoFar(chosen, top, left, bottom, right)
    requires 1 <= cell.row <= MAX_LONG && 1 <= cell.column <= MAX_LONG
    ensures BoundSoFar(chosen + [cell], Min(top, cell.row), Min(left, cell.column),
                       Max(bottom, cell.Rect().Bottom()), Max(right, cell.Rect().Right()))
  {
    var n, more := |chosen|, chosen + [cell];
    assert more[n] == cell && forall i :: 0 <= i < n ==> more[i] == chosen[i];
    if n > 0 {
      var i :| 0 <= i < n && chosen[i].row == top;
      var j :| 0 <= j < n && chosen[j].column == left;
      var k :| 0 <= k < n && chosen[k].Rect().Bottom() == bottom;
      var l :| 0 <= l < n && chosen[l].Rect().Right() == right;
      assert more[i].row == top && more[j].column == left;
      assert more[k].Rect().Bottom() == bottom && more[l].Rect().Right() == right;
    }
  }

  lemma {:induction false} LookOneMore(cells: seq<Cell>, byAddress: map<string, nat>, addresses: seq<string>,
                                       index: nat, chosen: seq<Cell>)
    requires Indexed(cells, byAddress) && index < |addresses| && Looked(cells, byAddress, addresses[..index], chosen)
    requires Normalize(addresses[index]) in byAddress
    ensures Looked(cells, byAddress, addresses[..index + 1], chosen + [cells[byAddress[Normalize(addresses[index])]]])
  {
    assert forall k :: 0 <= k < index ==> addresses[..index + 1][k] == addresses[..index][k];
  }

  lemma {:induction false} LookedAreCells(
    cells: seq<Cell>, byAddress: map<string, nat>, addresses: seq<string>, chosen: seq<Cell>)
    requires Indexed(cells, byAddress) && Looked(cells, byAddress, addresses, chosen)
    ensures forall i :: 0 <= i < |chosen| ==> chosen[i] in cells
  {
  }

  /** The cells looked up so far and the box around them. */
  ghost predicate Bounded(cells: seq<Cell>, byAddress: map<string, nat>, addresses: seq<string>, index: nat,
                          chosen: seq<Cell>, top: int, left: int, bottom: int, right: int)
    requires Indexed(cells, byAddress) && index <= |addresses|
  {
    Looked(cells, byAddress, addresses[..index], chosen) && BoundSoFar(chosen, top, left, bottom, right)
  }

  lemma {:induction false} NothingBounded(cells: seq<Cell>, byAddress: map<string, nat>, addresses: seq<string>)
    requires Indexed(cells, byAddress)
    ensures Bounded(cells, byAddress, addresses, 0, [], MAX_LONG, MAX_LONG, 0, 0)
  {
  }

  lemma {:induction false} AllBounded(
    cells: seq<Cell>, byAddress: map<string, nat>, addresses: seq<string>, chosen: seq<Cell>,
    top: int, left: int, bottom: int, right: int)
    requires Indexed(cells, byAddress) && addresses != []
    requires Bounded(cells, byAddress, addresses, |addresses|, chosen, top, left, bottom, right)
    ensures Looked(cells, byAddress, addresses, chosen) && BoundingBox(chosen, Span(top, left, bottom, right))
  {
    assert addresses[..|addresses|] == addresses;
  }

  lemma {:induction false} BoundOneMore(
    cells: seq<Cell>, byAddress: map<string, nat>, addresses: seq<string>, index: nat, chosen: seq<Cell>,
    top: int, left: int, bottom: int, right: int, cell: Cell)
    requires WellNamed(cells) && Indexed(cells, byAddress) && index < |addresses|
    requires Bounded(cells, byAddress, addresses, index, chosen, top, left, bottom, right)
    requires Normalize(addresses[index]) in byAddress && cell == cells[byAddress[Normalize(addresses[index])]]
    ensures Bounded(cells, byAddress, addresses, index + 1, chosen + [cell], Min(top, cell.row),
                    Min(left, cell.column), Max(bottom, cell.Rect().Bottom()), Max(right, cell.Rect().Right()))
  {
    CellInRange(cells, byAddress[Normalize(addresses[index])]);
    ExtendBox(chosen, top, left, bottom, right, cell);
    LookOneMore(cells, byAddress, addresses, index, chosen);
  }

  /** Folds the selected cells into a box. */
  method BoundSelection(cells: seq<Cell>, byAddress: map<string, nat>, addresses: seq<string>)
    returns (missing: bool, box: Rect, ghost chosen: seq<Cell>)
    requires WellNamed(cells) && Indexed(cells, byAddress) && addresses != []
    ensures missing ==> exists k :: 0 <= k < |addresses| && Normalize(addresses[k]) !in byAddress
    ensures !missing ==> Looked(cells, byAddress, addresses, chosen) && BoundingBox(chosen, box)
  {
    var top, left, bottom, right := MAX_LONG, MAX_LONG, 0, 0;
    chosen := [];
    NothingBounded(cells, byAddress, addresses);
    for index := 0 to |addresses|
      invariant Bounded(cells, byAddress, addresses, index, chosen, top, left, bottom, right)
    {
      var found := FindIn(byAddress, addresses[index]);
      if found.None? {
        return true, Grid(0, 0), chosen;
      }
      var cell := cells[found.value];
      BoundOneMore(cells, byAddress, addresses, index, chosen, top, left, bottom, right, cell);
      top, left := Min(top, cell.row), Min(left, cell.column);
      bottom, right := Max(bottom, cell.Rect().Bottom()), Max(right, cell.Rect().Right());
      chosen := chosen + [cell];
    }
    AllBounded(cells, byAddress, addresses, chosen, top, left, bottom, right);
    missing, box := false, Span(top, left, bottom, right);
  }

  lemma {:induction false} CellInRange(cells: seq<Cell>, i: nat)
    requires WellNamed(cells) && i < |cells|
    ensures cells[i].Rect().Proper() && 1 <= cells[i].row <= MAX_LONG && 1 <= cells[i].column <= MAX_LONG
  {
    assert Named(cells[i]);
  }

  /**
   * The outcome for a list of addresses: each must name a cell, and the owners of the corners of the box around them
   * decide as if they had been selected by their list ids.
   */
  ghost predicate AddressOutcome(cells: seq<Cell>, byAddress: map<string, nat>, selected: seq<string>,
                                 error: Option<PlanError>, firstAddress: string, lastAddress: string,
                                 path: seq<Step>, region: seq<string>)
    requires Indexed(cells, byAddress)
  {
    if selected == [] then error == Some(NothingSelected)
    else if exists k :: 0 <= k < |selected| && Normalize(selected[k]) !in byAddress then error == Some(AddressMissing)
    else
      exists chosen, box, upperLeft: nat, lowerRight: nat ::
        Looked(cells, byAddress, selected, chosen) && BoundingBox(chosen, box) &&
        CornersAt(cells, box, upperLeft, lowerRight) &&
        ListIdOutcome(cells, byAddress, cells[upperLeft].listId, cells[lowerRight].listId, error, firstAddress,
                      lastAddress, path, region)
  }

  method PlanByAddress(cells: seq<Cell>, byAddress: map<string, nat>, ghost rows: nat, ghost columns: nat,
                       selected: seq<string>)
    returns (error: Option<PlanError>, firstAddress: string, lastAddress: string,
             path: seq<Step>, region: seq<string>, ghost chosen: seq<Cell>, ghost area: Rect)
    requires Plannable(cells, byAddress, rows, columns)
    ensures AddressOutcome(cells, byAddress, selected, error, firstAddress, lastAddress, path, region)
    ensures error.None? ==> Looked(cells, byAddress, selected, chosen)
    ensures error.None? ==> SelectionPlan(cells, byAddress, chosen, area, firstAddress, lastAddress, path, region)
    ensures error != Some(CornersUncovered)
  {
    firstAddress, lastAddress, path, region, chosen, area := "", "", [], [], [], Grid(0, 0);
    if selected == [] {
      error := Some(NothingSelected);
      return;
    }
    var missing, box;
    missing, box, chosen := BoundSelection(cells, byAddress, selected);
    if missing {
      error := Some(AddressMissing);
      return;
    }
    LookedAreCells(cells, byAddress, selected, chosen);
    var upperLeft, lowerRight := CoveredCorners(cells, Grid(rows, columns), chosen, box);
    if upperLeft.None? || lowerRight.None? {
      error := Some(CornersUncovered);
      return;
    }
    error, firstAddress, lastAddress, path, region, area :=
      PlanThroughCorners(cells, byAddress, rows, columns, chosen, box, upperLeft.value, lowerRight.value);
    AddressesDecided(cells, byAddress, selected, chosen, box, upperLeft.value, lowerRight.value, error, firstAddress,
                     lastAddress, path, region);
  }

  lemma {:induction false} AddressesDecided(
    cells: seq<Cell>, byAddress: map<string, nat>, selected: seq<string>, chosen: seq<Cell>, box: Rect,
    upperLeft: nat, lowerRight: nat, error: Option<PlanError>, firstAddress: string, lastAddress: string,
    path: seq<Step>, region: seq<string>)
    requires Indexed(cells, byAddress) && selected != [] && Looked(cells, byAddress, selected, chosen)
    requires BoundingBox(chosen, box) && CornersAt(cells, box, upperLeft, lowerRight)
    requires ListIdOutcome(cells, byAddress, cells[upperLeft].listId, cells[lowerRight].listId, error, firstAddress,
                           lastAddress, path, region)
    ensures AddressOutcome(cells, byAddress, selected, error, firstAddress, lastAddress, path, region)
  {
  }

  /** Starts over from the two corner owners by their list ids. */
  method PlanThroughCorners(cells: seq<Cell>, byAddress: map<string, nat>, ghost rows: nat, ghost columns: nat,
                            ghost chosen: seq<Cell>, ghost box: Rect, upperLeft: nat, lowerRight: nat)
    returns (error: Option<PlanError>, firstAddress: string, lastAddress: string,
             path: seq<Step>, region: seq<string>, ghost area: Rect)
    requires Plannable(cells, byAddress, rows, columns) && BoundingBox(chosen, box)
    requires upperLeft < |cells| && cells[upperLeft].Rect().Holds(box.row, box.column)
    requires lowerRight < |cells| && cells[lowerRight].Rect().Holds(box.Bottom(), box.Right())
    ensures error.None? ==> SelectionPlan(cells, byAddress, chosen, area, firstAddress, lastAddress, path, region)
    ensures ListIdOutcome(cells, byAddress, cells[upperLeft].listId, cells[lowerRight].listId, error, firstAddress,
                          lastAddress, path, region)
    ensures error.Some? ==> error.value !in {CornersUncovered, NothingSelected, AddressMissing}
  {
    var first, last := cells[upperLeft], cells[lowerRight];
    ghost var corners;
    error, firstAddress, lastAddress, path, region, corners, area :=
      PlanByListId(cells, byAddress, rows, columns, first.listId, last.listId);
    if error.None? {
      SolePair(cells, upperLeft, lowerRight, corners);
      SmallestThroughCorners(cells, chosen, box, upperLeft, lowerRight, area);
    }
  }

  ghost predicate SoleCells(cells: seq<Cell>, firstId: int, secondId: int, chosen: seq<Cell>) {
    exists i: nat, j: nat ::
      Sole(cells, firstId, Some(i)) && Sole(cells, secondId, Some(j)) && chosen == [cells[i], cells[j]]
  }

  lemma {:induction false} SolePair(cells: seq<Cell>, upperLeft: nat, lowerRight: nat, corners: seq<Cell>)
    requires upperLeft < |cells| && lowerRight < |cells|
    requires SoleCells(cells, cells[upperLeft].listId, cells[lowerRight].listId, corners)
    ensures corners == [cells[upperLeft], cells[lowerRight]]
  {
  }
}
