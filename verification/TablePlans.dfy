/** Planning a merge or a selection: which cells, and along which right and down moves. */
module TablePlans {
  import opened Options
  import opened Counting
  import opened Geometry
  import opened CellAddress
  import opened TableGrid
  import opened NeighbourPaths
  import opened Regions
  import NeighbourOrder

  datatype PlanError =
    | EndpointsNotForward
    | NotARectangle
    | NoNeighbourPath
    | StartAmbiguous
    | EndAmbiguous
    | EndpointsMissing
    | CornersUncovered
    | NothingSelected
    | AddressMissing

  /** What planning relies on: an exact cover of a grid, possibly the empty one, with legal links. */
  ghost predicate Plannable(cells: seq<Cell>, byAddress: map<string, nat>, rows: nat, columns: nat) {
    WellNamed(cells) && Indexed(cells, byAddress) && Linked(cells) && Tiles(Rects(cells), Grid(rows, columns))
  }

  function FindIn(byAddress: map<string, nat>, raw: string): Option<nat> {
    var address := Normalize(raw);
    if address in byAddress then Some(byAddress[address]) else None
  }

  // ----- the neighbour graph has no cycle -----

  /** Addresses visited by a chain, the start included. */
  function Visited(start: string, path: seq<Step>): (visited: seq<string>)
    ensures |visited| == |path| + 1 && visited[|path|] == Last(start, path)
  {
    if path == [] then [start]
    else Visited(start, path[..|path| - 1]) + [path[|path| - 1].destination]
  }

  ghost function WalkOf(byAddress: map<string, nat>, visited: seq<string>): (walk: seq<nat>)
    requires forall k :: 0 <= k < |visited| ==> visited[k] in byAddress
    ensures |walk| == |visited| && forall k :: 0 <= k < |walk| ==> walk[k] == byAddress[visited[k]]
  {
    seq(|visited|, k requires 0 <= k < |visited| => byAddress[visited[k]])
  }

  lemma {:induction false} LinkIsBefore(cells: seq<Cell>, byAddress: map<string, nat>, i: nat, direction: Direction)
    requires i < |cells| && Indexed(cells, byAddress) && LinkOk(cells, i, direction)
    requires AllProper(Rects(cells)) && Disjoint(Rects(cells))
    requires cells[i].Neighbour(direction) != ""
    ensures cells[i].Neighbour(direction) in byAddress
    ensures NeighbourOrder.Before(cells[i].Rect(), cells[byAddress[cells[i].Neighbour(direction)]].Rect())
  {
    var rects := Rects(cells);
    var j :| 0 <= j < |cells| && cells[j].address == cells[i].Neighbour(direction) && j != i &&
             Adjoins(cells[i], cells[j], direction);
    assert !Intersects(rects[i], rects[j]) by {
      if i < j { assert !Intersects(rects[i], rects[j]); } else { assert !Intersects(rects[j], rects[i]); }
    }
  }

  lemma {:induction false} ExtendWalk(rects: seq<Rect>, walk: seq<nat>, next: nat)
    requires NeighbourOrder.Walk(rects, walk) && walk != [] && next < |rects|
    requires NeighbourOrder.Before(rects[walk[|walk| - 1]], rects[next])
    ensures NeighbourOrder.Walk(rects, walk + [next])
  {
    var longer := walk + [next];
    forall k | 0 <= k < |longer| - 1 ensures NeighbourOrder.Before(rects[longer[k]], rects[longer[k + 1]]) {
      if k < |walk| - 1 { assert longer[k] == walk[k] && longer[k + 1] == walk[k + 1]; }
    }
  }

  lemma {:induction false} AppendVisited(byAddress: map<string, nat>, visited: seq<string>, next: string)
    requires next in byAddress && forall k :: 0 <= k < |visited| ==> visited[k] in byAddress
    ensures forall k :: 0 <= k < |visited + [next]| ==> (visited + [next])[k] in byAddress
    ensures WalkOf(byAddress, visited + [next]) == WalkOf(byAddress, visited) + [byAddress[next]]
  {
  }

  lemma {:induction false} ChainIsWalk(g: Links, rows: nat, columns: nat, start: string, path: seq<Step>)
    requires Plannable(g.cells, g.byAddress, rows, columns) && start in g.byAddress
    requires IsChain(g, start, path)
    ensures forall k :: 0 <= k <= |path| ==> Visited(start, path)[k] in g.byAddress
    ensures NeighbourOrder.Walk(Rects(g.cells), WalkOf(g.byAddress, Visited(start, path)))
  {
    if path != [] {
      var init, last := path[..|path| - 1], path[|path| - 1];
      ChainIsWalk(g, rows, columns, start, init);
      var from := Last(start, init);
      LinkIsBefore(g.cells, g.byAddress, g.byAddress[from], last.direction);
      var walk := WalkOf(g.byAddress, Visited(start, init));
      ExtendWalk(Rects(g.cells), walk, g.byAddress[last.destination]);
      AppendVisited(g.byAddress, Visited(start, init), last.destination);
    }
  }

  /** However a chain of right and down neighbours winds through the table, it never comes back
      to a cell, so it has at most as many cells as the table. */
  lemma {:induction false} ChainNeverRepeats(g: Links, rows: nat, columns: nat, start: string, path: seq<Step>)
    requires Plannable(g.cells, g.byAddress, rows, columns) && start in g.byAddress
    requires IsChain(g, start, path)
    ensures forall i, j :: 0 <= i < j <= |path| ==> Visited(start, path)[i] != Visited(start, path)[j]
    ensures |path| < |g.cells|
  {
    ChainIsWalk(g, rows, columns, start, path);
    var walk := WalkOf(g.byAddress, Visited(start, path));
    forall i | 0 <= i < |g.cells| ensures Rects(g.cells)[i].column >= 1 {
      assert Named(g.cells[i]);
    }
    NeighbourOrder.NoCycle(Rects(g.cells), walk);
    assert forall i, j :: 0 <= i < j <= |path| ==> walk[i] != walk[j];
  }

  // ----- collecting a region -----

  method CollectRegion(cells: seq<Cell>, area: Rect)
    returns (ok: bool, region: seq<string>, allowed: set<string>, coveredSlots: int)
    ensures ok <==> Unstraddled(cells, area)
    ensures ok ==> AddressesOf(allowed, Within(cells, area))
    ensures ok ==> region == Addresses(Within(cells, area)) && coveredSlots == TotalArea(Rects(Within(cells, area)))
  {
    region, coveredSlots, allowed := [], 0, {};
    ghost var kept: seq<Cell> := [];
    for index := 0 to |cells|
      invariant kept == Within(cells[..index], area)
      invariant region == Addresses(kept) && coveredSlots == TotalArea(Rects(kept))
      invariant AddressesOf(allowed, kept)
      invariant Unstraddled(cells[..index], area)
    {
      var cell := cells[index];
      assert cells[..index + 1][..index] == cells[..index];
      if !Intersects(cell.Rect(), area) {
        continue;
      }
      if !Inside(cell.Rect(), area) {
        ok := false;
        return;
      }
      AppendKept(kept, cell);
      coveredSlots := coveredSlots + cell.rowSpan * cell.columnSpan;
      allowed := allowed + {cell.address};
      region := region + [cell.address];
      kept := kept + [cell];
    }
    assert cells[..|cells|] == cells;
    ok := true;
  }

  lemma {:induction false} AppendKept(kept: seq<Cell>, cell: Cell)
    ensures Addresses(kept + [cell]) == Addresses(kept) + [cell.address]
    ensures TotalArea(Rects(kept + [cell])) == TotalArea(Rects(kept)) + cell.Rect().Area()
  {
    assert Rects(kept + [cell])[..|kept|] == Rects(kept);
  }

  // ----- merging a rectangle -----

  predicate Forward(cells: seq<Cell>, start: Option<nat>, end: Option<nat>) {
    && start.Some? && end.Some? && start.value < |cells| && end.value < |cells|
    && cells[start.value].row <= cells[end.value].row && cells[start.value].column <= cells[end.value].column
  }

  /** The neighbour links restricted to the cells of a rectangle. */
  function LinksIn(cells: seq<Cell>, byAddress: map<string, nat>, area: Rect): Links {
    Links(cells, byAddress, set a | a in Addresses(Within(cells, area)))
  }

  /** `path` is one of the shortest neighbour chains from `first` to `last` inside the rectangle. */
  ghost predicate BestPath(cells: seq<Cell>, byAddress: map<string, nat>, area: Rect,
                           first: string, last: string, path: seq<Step>)
    requires Indexed(cells, byAddress)
  {
    var g := LinksIn(cells, byAddress, area);
    IsChain(g, first, path) && Last(first, path) == last && Shortest(g, first, last, |path|)
  }

  ghost predicate Unconnected(cells: seq<Cell>, byAddress: map<string, nat>, area: Rect, first: string, last: string)
    requires Indexed(cells, byAddress)
  {
    var g := LinksIn(cells, byAddress, area);
    forall path :: IsChain(g, first, path) ==> Last(first, path) != last
  }

  /** Exactly how a merge is decided: the endpoints, the straddling test, start against end, and the links. */
  ghost predicate MergeOutcome(
    cells: seq<Cell>, byAddress: map<string, nat>, start: Option<nat>, end: Option<nat>,
    error: Option<PlanError>, path: seq<Step>, region: seq<string>)
    requires Indexed(cells, byAddress)
  {
    if !Forward(cells, start, end) then error == Some(EndpointsNotForward)
    else
      var first, last := cells[start.value], cells[end.value];
      var area := SpanOf(first, last);
      if !Unstraddled(cells, area) || start == end then error == Some(NotARectangle)
      else if error.Some? then
        error == Some(NoNeighbourPath) && Unconnected(cells, byAddress, area, first.address, last.address)
      else
        region == Addresses(Within(cells, area)) && BestPath(cells, byAddress, area, first.address, last.address, path)
  }

  lemma {:induction false} SpanInGrid(cells: seq<Cell>, grid: Rect, start: nat, end: nat)
    requires start < |cells| && end < |cells| && Tiles(Rects(cells), grid)
    ensures Inside(SpanOf(cells[start], cells[end]), grid)
    ensures Forward(cells, Some(start), Some(end)) ==>
      var area := SpanOf(cells[start], cells[end]);
      area.Proper() && Intersects(cells[start].Rect(), area) && Intersects(cells[end].Rect(), area)
  {
    var rects := Rects(cells);
    assert rects[start].Proper() && rects[end].Proper() && Inside(rects[start], grid) && Inside(rects[end], grid);
  }

  ghost predicate AddressesOf(allowed: set<string>, cells: seq<Cell>) {
    forall a :: a in allowed <==> a in Addresses(cells)
  }

  lemma {:induction false} EndpointsAllowed(cells: seq<Cell>, grid: Rect, start: nat, end: nat, allowed: set<string>)
    requires Tiles(Rects(cells), grid) && start < |cells| && end < |cells|
    requires Forward(cells, Some(start), Some(end))
    requires AddressesOf(allowed, Within(cells, SpanOf(cells[start], cells[end])))
    ensures cells[start].address in allowed && cells[end].address in allowed
  {
    var area := SpanOf(cells[start], cells[end]);
    SpanInGrid(cells, grid, start, end);
    AddressKept(cells, area, start);
    AddressKept(cells, area, end);
  }

  lemma {:induction false} OnlyOneAllowed(cells: seq<Cell>, grid: Rect, start: nat, allowed: set<string>)
    requires Tiles(Rects(cells), grid) && start < |cells|
    requires AddressesOf(allowed, Within(cells, cells[start].Rect()))
    ensures forall a :: a in allowed ==> a == cells[start].address
  {
    var kept := Within(cells, cells[start].Rect());
    WithinMembers(cells, cells[start].Rect());
    forall a | a in allowed ensures a == cells[start].address {
      var k :| 0 <= k < |kept| && Addresses(kept)[k] == a;
      assert kept[k] in cells;
      var i :| 0 <= i < |cells| && cells[i] == kept[k];
      SoleIntersection(cells, start, i);
    }
  }

  /** A merge region holds a single cell exactly when its two endpoints are the same cell. */
  lemma {:induction false} SingleCellRegion(cells: seq<Cell>, grid: Rect, start: nat, end: nat, allowed: set<string>)
    requires WellNamed(cells) && Tiles(Rects(cells), grid) && start < |cells| && end < |cells|
    requires Forward(cells, Some(start), Some(end))
    requires AddressesOf(allowed, Within(cells, SpanOf(cells[start], cells[end])))
    ensures |allowed| < 2 <==> start == end
  {
    EndpointsAllowed(cells, grid, start, end, allowed);
    var first, last := cells[start].address, cells[end].address;
    if start == end {
      assert SpanOf(cells[start], cells[end]) == cells[start].Rect();
      OnlyOneAllowed(cells, grid, start, allowed);
      assert allowed == {first};
    } else {
      SubsetCount({first, last}, allowed);
    }
  }

  lemma {:induction false} SoleIntersection(cells: seq<Cell>, i: nat, j: nat)
    requires i < |cells| && j < |cells| && Disjoint(Rects(cells)) && Intersects(cells[j].Rect(), cells[i].Rect())
    ensures i == j
  {
    var rects := Rects(cells);
    assert Intersects(rects[i], rects[j]) && Intersects(rects[j], rects[i]);
  }

  lemma {:induction false} AddressKept(cells: seq<Cell>, area: Rect, i: nat)
    requires i < |cells| && Intersects(cells[i].Rect(), area)
    ensures cells[i].address in Addresses(Within(cells, area))
  {
    WithinMembers(cells, area);
    var kept := Within(cells, area);
    assert cells[i] in kept;
    var k :| 0 <= k < |kept| && kept[k] == cells[i];
    assert Addresses(kept)[k] == cells[i].address;
  }

  lemma {:induction false} KeptAreIndexed(cells: seq<Cell>, byAddress: map<string, nat>, area: Rect)
    requires Indexed(cells, byAddress)
    ensures LinksIn(cells, byAddress, area).allowed <= byAddress.Keys
  {
    WithinMembers(cells, area);
    var kept := Within(cells, area);
    forall a | a in Addresses(kept) ensures a in byAddress {
      var k :| 0 <= k < |kept| && Addresses(kept)[k] == a;
      assert kept[k] in cells;
    }
  }

  /** The search proper, once the region is known. */
  method ConnectRegion(cells: seq<Cell>, byAddress: map<string, nat>, ghost area: Rect, allowed: set<string>,
                       first: string, last: string)
    returns (path: Option<seq<Step>>)
    requires Indexed(cells, byAddress) && AddressesOf(allowed, Within(cells, area)) && first in byAddress
    ensures path.Some? ==> BestPath(cells, byAddress, area, first, last, path.value)
    ensures path.None? ==> Unconnected(cells, byAddress, area, first, last)
  {
    assert Links(cells, byAddress, allowed) == LinksIn(cells, byAddress, area);
    KeptAreIndexed(cells, byAddress, area);
    path := FindPath(Links(cells, byAddress, allowed), first, last);
  }

  lemma {:induction false} SizeTests(cells: seq<Cell>, grid: Rect, start: nat, end: nat, allowed: set<string>)
    requires WellNamed(cells) && Tiles(Rects(cells), grid)
    requires start < |cells| && end < |cells| && Forward(cells, Some(start), Some(end))
    requires var area := SpanOf(cells[start], cells[end]);
      Unstraddled(cells, area) && AddressesOf(allowed, Within(cells, area))
    ensures
      var area := SpanOf(cells[start], cells[end]);
      TotalArea(Rects(Within(cells, area))) == area.rowSpan * area.columnSpan
    ensures |allowed| < 2 <==> start == end
  {
    var area := SpanOf(cells[start], cells[end]);
    SpanInGrid(cells, grid, start, end);
    SlotCountNeverDiffers(cells, grid, area);
    SingleCellRegion(cells, grid, start, end, allowed);
  }

  /** Collects the region and applies the two size tests to it. Counting slots decides nothing
      that the straddling test has not decided, and fewer than two cells means one endpoint cell. */
  method RegionForMerge(cells: seq<Cell>, ghost grid: Rect, start: nat, end: nat)
    returns (ok: bool, region: seq<string>, allowed: set<string>)
    requires WellNamed(cells) && Tiles(Rects(cells), grid)
    requires start < |cells| && end < |cells| && Forward(cells, Some(start), Some(end))
    ensures var area := SpanOf(cells[start], cells[end]);
      && (ok <==> Unstraddled(cells, area) && start != end)
      && (ok ==> region == Addresses(Within(cells, area)) && AddressesOf(allowed, Within(cells, area)))
  {
    var from, to := cells[start], cells[end];
    var bottom, right := to.row + to.rowSpan - 1, to.column + to.columnSpan - 1;
    var area := Span(from.row, from.column, bottom, right);
    assert area == SpanOf(from, to);
    var coveredSlots;
    ok, region, allowed, coveredSlots := CollectRegion(cells, area);
    if ok {
      SizeTests(cells, grid, start, end, allowed);
      assert area.rowSpan == bottom - from.row + 1 && area.columnSpan == right - from.column + 1;
      var expectedSlots := area.rowSpan * area.columnSpan;
      ok := coveredSlots == expectedSlots && |allowed| >= 2;
    }
  }

  method PlanMerge(cells: seq<Cell>, byAddress: map<string, nat>, ghost rows: nat, ghost columns: nat,
                   first: string, second: string)
    returns (error: Option<PlanError>, path: seq<Step>, region: seq<string>)
    requires Plannable(cells, byAddress, rows, columns)
    ensures MergeOutcome(cells, byAddress, FindIn(byAddress, first), FindIn(byAddress, second), error, path, region)
  {
    path, region := [], [];
    var start, end := FindIn(byAddress, first), FindIn(byAddress, second);
    if !Forward(cells, start, end) {
      return Some(EndpointsNotForward), path, region;
    }
    var ok, allowed;
    ok, region, allowed := RegionForMerge(cells, Grid(rows, columns), start.value, end.value);
    if !ok {
      return Some(NotARectangle), path, region;
    }
    var from, to := cells[start.value], cells[end.value];
    var found := ConnectRegion(cells, byAddress, SpanOf(from, to), allowed, from.address, to.address);
    if found.None? {
      return Some(NoNeighbourPath), path, region;
    }
    path := found.value;
    error := None;
  }
}
