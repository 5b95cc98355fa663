/** Which cells a rectangle of the table holds, and when a rectangle can be selected at all. */
module Regions {
  import opened Geometry
  import opened TableGrid

  /** The cells that meet the rectangle, in table order. */
  function Within(cells: seq<Cell>, area: Rect): (inside: seq<Cell>)
    ensures |inside| <= |cells|
  {
    if cells == [] then []
    else
      var init, last := Within(cells[..|cells| - 1], area), cells[|cells| - 1];
      if Intersects(last.Rect(), area) then init + [last] else init
  }

  function Addresses(cells: seq<Cell>): (addresses: seq<string>)
    ensures |addresses| == |cells| && forall i :: 0 <= i < |cells| ==> addresses[i] == cells[i].address
  {
    seq(|cells|, i requires 0 <= i < |cells| => cells[i].address)
  }

  /** No cell lies partly inside and partly outside the rectangle. */
  ghost predicate Unstraddled(cells: seq<Cell>, area: Rect) {
    forall i :: 0 <= i < |cells| ==> (Intersects(cells[i].Rect(), area) ==> Inside(cells[i].Rect(), area))
  }

  /** A rectangle that no cell straddles and that holds every one of the chosen cells. */
  ghost predicate Closes(cells: seq<Cell>, chosen: seq<Cell>, area: Rect) {
    Unstraddled(cells, area) && forall i :: 0 <= i < |chosen| ==> Inside(chosen[i].Rect(), area)
  }

  ghost predicate Smallest(cells: seq<Cell>, chosen: seq<Cell>, area: Rect) {
    Closes(cells, chosen, area) && forall other :: Closes(cells, chosen, other) ==> Inside(area, other)
  }

  lemma {:induction false} WithinMembers(cells: seq<Cell>, area: Rect)
    ensures forall c :: c in Within(cells, area) <==> c in cells && Intersects(c.Rect(), area)
  {
    if cells != [] {
      WithinMembers(cells[..|cells| - 1], area);
      assert cells == cells[..|cells| - 1] + [cells[|cells| - 1]];
    }
  }

  lemma {:induction false} WithinDisjoint(cells: seq<Cell>, area: Rect)
    requires Disjoint(Rects(cells))
    ensures Disjoint(Rects(Within(cells, area)))
  {
    if cells != [] {
      var n := |cells| - 1;
      var init := cells[..n];
      assert forall i :: 0 <= i < n ==> Rects(init)[i] == Rects(cells)[i];
      WithinDisjoint(init, area);
      WithinMembers(init, area);
      LastApart(cells, area);
    }
  }

  lemma {:induction false} LastApart(cells: seq<Cell>, area: Rect)
    requires cells != [] && Disjoint(Rects(cells))
    ensures var kept := Within(cells[..|cells| - 1], area);
      forall k :: 0 <= k < |kept| ==> !Intersects(Rects(kept)[k], cells[|cells| - 1].Rect())
  {
    var n := |cells| - 1;
    var kept := Within(cells[..n], area);
    WithinMembers(cells[..n], area);
    forall k | 0 <= k < |kept| ensures !Intersects(Rects(kept)[k], cells[n].Rect()) {
      assert kept[k] in cells[..n];
      var i :| 0 <= i < n && cells[..n][i] == kept[k];
      assert !Intersects(Rects(cells)[i], Rects(cells)[n]);
    }
  }

  /** In an exact cover, the cells of an unstraddled rectangle are an exact cover of it. */
  lemma {:induction false} RegionTiles(cells: seq<Cell>, grid: Rect, area: Rect)
    requires Tiles(Rects(cells), grid) && Inside(area, grid) && Unstraddled(cells, area)
    ensures Tiles(Rects(Within(cells, area)), area)
  {
    var kept := Within(cells, area);
    WithinMembers(cells, area);
    WithinDisjoint(cells, area);
    forall k | 0 <= k < |kept| ensures Rects(kept)[k].Proper() && Inside(Rects(kept)[k], area) {
      assert kept[k] in cells;
      var i :| 0 <= i < |cells| && cells[i] == kept[k];
      assert Rects(cells)[i].Proper();
    }
    RegionCovered(cells, grid, area);
  }

  lemma {:induction false} RegionCovered(cells: seq<Cell>, grid: Rect, area: Rect)
    requires Tiles(Rects(cells), grid) && Inside(area, grid)
    ensures Covers(Rects(Within(cells, area)), area)
  {
    var kept := Within(cells, area);
    WithinMembers(cells, area);
    forall r, c | area.Holds(r, c)
      ensures exists k :: 0 <= k < |Rects(kept)| && Rects(kept)[k].Holds(r, c)
    {
      assert grid.Holds(r, c);
      var i :| 0 <= i < |Rects(cells)| && Rects(cells)[i].Holds(r, c);
      assert cells[i].Rect().Holds(r, c) && cells[i] in kept;
      var k :| 0 <= k < |kept| && kept[k] == cells[i];
      assert Rects(kept)[k].Holds(r, c);
    }
  }

  /** The slots of the cells in an unstraddled rectangle add up to the rectangle: counting them
      again after the straddling test can never find a difference. */
  lemma {:induction false} SlotCountNeverDiffers(cells: seq<Cell>, grid: Rect, area: Rect)
    requires Tiles(Rects(cells), grid) && Inside(area, grid) && Unstraddled(cells, area)
    requires area.rowSpan >= 0 && area.columnSpan >= 0
    ensures TotalArea(Rects(Within(cells, area))) == area.Area()
  {
    RegionTiles(cells, grid, area);
    AreaDecidesCover(Rects(Within(cells, area)), area);
  }

  /** The rectangle from the first slot of `start` to the last slot of `end`. */
  function SpanOf(start: Cell, end: Cell): Rect {
    Span(start.row, start.column, end.Rect().Bottom(), end.Rect().Right())
  }

  /** A cell that covers a slot of a closed rectangle lies inside it. */
  lemma {:induction false} HolderInside(cells: seq<Cell>, area: Rect, i: nat, r: int, c: int)
    requires i < |cells| && Unstraddled(cells, area) && area.Holds(r, c) && cells[i].Rect().Holds(r, c)
    ensures Inside(cells[i].Rect(), area)
  {
  }

  /** If the corners of the chosen cells' bounding box belong to `upperLeft` and `lowerRight`, then any closed
      rectangle around the chosen cells also holds these two cells, and so the rectangle they span. */
  lemma {:induction false} CornersForced(cells: seq<Cell>, chosen: seq<Cell>, box: Rect, upperLeft: nat,
                                         lowerRight: nat, other: Rect)
    requires upperLeft < |cells| && lowerRight < |cells|
    requires cells[upperLeft].Rect().Holds(box.row, box.column)
    requires cells[lowerRight].Rect().Holds(box.Bottom(), box.Right())
    requires BoundingBox(chosen, box) && Closes(cells, chosen, other)
    ensures Inside(cells[upperLeft].Rect(), other) && Inside(cells[lowerRight].Rect(), other)
    ensures Inside(SpanOf(cells[upperLeft], cells[lowerRight]), other)
  {
    BoxForced(chosen, box, other);
    HolderInside(cells, other, upperLeft, box.row, box.column);
    HolderInside(cells, other, lowerRight, box.Bottom(), box.Right());
  }

  /** The least rectangle holding every chosen cell, of which there is at least one. */
  ghost predicate BoundingBox(chosen: seq<Cell>, box: Rect) {
    && box.Proper()
    && (forall i :: 0 <= i < |chosen| ==> Inside(chosen[i].Rect(), box))
    && (exists i :: 0 <= i < |chosen| && chosen[i].row == box.row)
    && (exists i :: 0 <= i < |chosen| && chosen[i].column == box.column)
    && (exists i :: 0 <= i < |chosen| && chosen[i].Rect().Bottom() == box.Bottom())
    && (exists i :: 0 <= i < |chosen| && chosen[i].Rect().Right() == box.Right())
  }

  lemma {:induction false} BoxForced(chosen: seq<Cell>, box: Rect, other: Rect)
    requires BoundingBox(chosen, box)
    requires forall i :: 0 <= i < |chosen| ==> Inside(chosen[i].Rect(), other)
    ensures Inside(box, other) && other.Holds(box.row, box.column) && other.Holds(box.Bottom(), box.Right())
  {
    var i :| 0 <= i < |chosen| && chosen[i].row == box.row;
    var j :| 0 <= j < |chosen| && chosen[j].column == box.column;
    var k :| 0 <= k < |chosen| && chosen[k].Rect().Bottom() == box.Bottom();
    var l :| 0 <= l < |chosen| && chosen[l].Rect().Right() == box.Right();
    assert Inside(chosen[i].Rect(), other) && Inside(chosen[j].Rect(), other);
    assert Inside(chosen[k].Rect(), other) && Inside(chosen[l].Rect(), other);
  }

  /** The rectangle spanned by the two corner owners, once no cell straddles it, is the smallest closed one. */
  lemma {:induction false} SpanSmallest(cells: seq<Cell>, chosen: seq<Cell>, box: Rect, upperLeft: nat, lowerRight: nat)
    requires upperLeft < |cells| && lowerRight < |cells|
    requires cells[upperLeft].Rect().Holds(box.row, box.column)
    requires cells[lowerRight].Rect().Holds(box.Bottom(), box.Right())
    requires BoundingBox(chosen, box)
    requires Unstraddled(cells, SpanOf(cells[upperLeft], cells[lowerRight]))
    ensures Smallest(cells, chosen, SpanOf(cells[upperLeft], cells[lowerRight]))
  {
    var span := SpanOf(cells[upperLeft], cells[lowerRight]);
    forall i | 0 <= i < |chosen| ensures Inside(chosen[i].Rect(), span) {
      assert Inside(chosen[i].Rect(), box);
    }
    forall other | Closes(cells, chosen, other) ensures Inside(span, other) {
      CornersForced(cells, chosen, box, upperLeft, lowerRight, other);
    }
  }

  /** Growing a selection to its two corner owners and starting again from those loses nothing:
      the smallest closed rectangle around the corners is the smallest one around the selection. */
  lemma {:induction false} SmallestThroughCorners(
    cells: seq<Cell>, chosen: seq<Cell>, box: Rect, upperLeft: nat, lowerRight: nat, area: Rect)
    requires upperLeft < |cells| && lowerRight < |cells|
    requires cells[upperLeft].Rect().Holds(box.row, box.column)
    requires cells[lowerRight].Rect().Holds(box.Bottom(), box.Right())
    requires BoundingBox(chosen, box)
    requires Smallest(cells, [cells[upperLeft], cells[lowerRight]], area)
    ensures Smallest(cells, chosen, area)
  {
    var corners := [cells[upperLeft], cells[lowerRight]];
    assert Inside(corners[0].Rect(), area) && Inside(corners[1].Rect(), area);
    forall i | 0 <= i < |chosen| ensures Inside(chosen[i].Rect(), area) {
      assert Inside(chosen[i].Rect(), box);
    }
    forall other | Closes(cells, chosen, other) ensures Inside(area, other) {
      CornersForced(cells, chosen, box, upperLeft, lowerRight, other);
      assert Closes(cells, corners, other);
    }
  }
}
