/** Rectangles of table slots: intersection, containment and counting.
    Rows and columns are numbered from one, as in a cell address. */
module Geometry {
  import opened Counting

  datatype Rect = Rect(row: int, column: int, rowSpan: int, columnSpan: int) {
    function Bottom(): int { row + rowSpan - 1 }

    function Right(): int { column + columnSpan - 1 }

    function Area(): int { rowSpan * columnSpan }

    predicate Proper() { rowSpan >= 1 && columnSpan >= 1 }

    predicate Holds(r: int, c: int) { row <= r <= Bottom() && column <= c <= Right() }
  }

  predicate Intersects(a: Rect, b: Rect) {
    && a.row <= b.Bottom() && b.row <= a.Bottom()
    && a.column <= b.Right() && b.column <= a.Right()
  }

  predicate Inside(a: Rect, b: Rect) {
    b.row <= a.row && b.column <= a.column && a.Bottom() <= b.Bottom() && a.Right() <= b.Right()
  }

  /** The rectangle with the given corners. */
  function Span(top: int, left: int, bottom: int, right: int): Rect {
    Rect(top, left, bottom - top + 1, right - left + 1)
  }

  ghost predicate Disjoint(rects: seq<Rect>) {
    forall i, j :: 0 <= i < j < |rects| ==> !Intersects(rects[i], rects[j])
  }

  ghost predicate Covers(rects: seq<Rect>, area: Rect) {
    forall r, c :: area.Holds(r, c) ==> exists i :: 0 <= i < |rects| && rects[i].Holds(r, c)
  }

  ghost predicate AllProper(rects: seq<Rect>) {
    forall i :: 0 <= i < |rects| ==> rects[i].Proper()
  }

  ghost predicate AllInside(rects: seq<Rect>, area: Rect) {
    forall i :: 0 <= i < |rects| ==> Inside(rects[i], area)
  }

  /** `rects` is an exact cover of `area`: every slot of the area lies in exactly one of them. */
  ghost predicate Tiles(rects: seq<Rect>, area: Rect) {
    AllProper(rects) && AllInside(rects, area) && Disjoint(rects) && Covers(rects, area)
  }

  function TotalArea(rects: seq<Rect>): int {
    if rects == [] then 0 else TotalArea(rects[..|rects| - 1]) + rects[|rects| - 1].Area()
  }

  ghost function Slots(rect: Rect): set<(int, int)> {
    set r, c | rect.row <= r <= rect.Bottom() && rect.column <= c <= rect.Right() :: (r, c)
  }

  ghost function Union(rects: seq<Rect>): set<(int, int)> {
    if rects == [] then {} else Union(rects[..|rects| - 1]) + Slots(rects[|rects| - 1])
  }

  lemma {:induction false} InUnion(rects: seq<Rect>, p: (int, int))
    ensures p in Union(rects) <==> exists i :: 0 <= i < |rects| && p in Slots(rects[i])
  {
    if rects != [] {
      var n := |rects| - 1;
      InUnion(rects[..n], p);
      if p in Union(rects[..n]) {
        var i :| 0 <= i < n && p in Slots(rects[..n][i]);
        assert p in Slots(rects[i]);
      }
      if i :| 0 <= i < |rects| && p in Slots(rects[i]) {
        assert i < n ==> rects[..n][i] == rects[i];
      }
    }
  }

  lemma {:induction false} RowCount(row: int, column: int, columnSpan: nat)
    ensures |Slots(Rect(row, column, 1, columnSpan))| == columnSpan
  {
    var all := Slots(Rect(row, column, 1, columnSpan));
    if columnSpan == 0 {
      assert all == {};
    } else {
      RowCount(row, column, columnSpan - 1);
      assert all == Slots(Rect(row, column, 1, columnSpan - 1)) + {(row, column + columnSpan - 1)};
    }
  }

  lemma {:induction false} LastRow(rect: Rect)
    requires rect.rowSpan >= 1 && rect.columnSpan >= 0
    ensures |Slots(rect)| == |Slots(rect.(rowSpan := rect.rowSpan - 1))| + rect.columnSpan
  {
    var rest := rect.(rowSpan := rect.rowSpan - 1);
    var last := Rect(rect.Bottom(), rect.column, 1, rect.columnSpan);
    RowCount(rect.Bottom(), rect.column, rect.columnSpan);
    assert Slots(rect) == Slots(rest) + Slots(last);
    assert Slots(rest) !! Slots(last);
  }

  /** Counting the slots one by one gives height times width. */
  lemma {:induction false} SlotCount(rect: Rect)
    requires rect.rowSpan >= 0 && rect.columnSpan >= 0
    ensures |Slots(rect)| == rect.Area()
    decreases rect.rowSpan
  {
    if rect.rowSpan == 0 {
      assert Slots(rect) == {};
    } else {
      LastRow(rect);
      SlotCount(rect.(rowSpan := rect.rowSpan - 1));
    }
  }

  lemma {:induction false} DisjointSlots(a: Rect, b: Rect)
    requires a.Proper() && b.Proper()
    ensures Intersects(a, b) <==> Slots(a) * Slots(b) != {}
  {
    if Intersects(a, b) {
      var r := if a.row < b.row then b.row else a.row;
      var c := if a.column < b.column then b.column else a.column;
      assert (r, c) in Slots(a) * Slots(b);
    }
  }

  lemma {:induction false} LastIsApart(rects: seq<Rect>)
    requires rects != [] && AllProper(rects) && Disjoint(rects)
    ensures Union(rects[..|rects| - 1]) !! Slots(rects[|rects| - 1])
  {
    var n := |rects| - 1;
    forall p | p in Union(rects[..n]) ensures p !in Slots(rects[n]) {
      InUnion(rects[..n], p);
      var i :| 0 <= i < n && p in Slots(rects[..n][i]);
      DisjointSlots(rects[i], rects[n]);
    }
  }

  /** Disjoint rectangles occupy as many slots as their areas add up to. */
  lemma {:induction false} UnionCount(rects: seq<Rect>)
    requires AllProper(rects) && Disjoint(rects)
    ensures |Union(rects)| == TotalArea(rects)
  {
    if rects != [] {
      LastIsApart(rects);
      UnionCount(rects[..|rects| - 1]);
      SlotCount(rects[|rects| - 1]);
    }
  }

  /** Disjoint rectangles inside an area leave no gap exactly when their areas add up to it. */
  lemma {:induction false} AreaDecidesCover(rects: seq<Rect>, area: Rect)
    requires area.rowSpan >= 0 && area.columnSpan >= 0
    requires AllProper(rects) && AllInside(rects, area) && Disjoint(rects)
    ensures TotalArea(rects) <= area.Area()
    ensures TotalArea(rects) == area.Area() <==> Covers(rects, area)
  {
    UnionCount(rects);
    SlotCount(area);
    UnionInside(rects, area);
    SubsetCount(Union(rects), Slots(area));
    UnionIsCover(rects, area);
  }

  lemma {:induction false} UnionInside(rects: seq<Rect>, area: Rect)
    requires AllInside(rects, area)
    ensures Union(rects) <= Slots(area)
  {
    forall p | p in Union(rects) ensures p in Slots(area) {
      InUnion(rects, p);
      var i :| 0 <= i < |rects| && p in Slots(rects[i]);
      assert Inside(rects[i], area);
    }
  }

  lemma {:induction false} UnionIsCover(rects: seq<Rect>, area: Rect)
    requires AllInside(rects, area)
    ensures Union(rects) == Slots(area) <==> Covers(rects, area)
  {
    UnionInside(rects, area);
    if Union(rects) == Slots(area) {
      forall r, c | area.Holds(r, c)
        ensures exists i :: 0 <= i < |rects| && rects[i].Holds(r, c)
      {
        assert (r, c) in Slots(area);
        InUnion(rects, (r, c));
        var i :| 0 <= i < |rects| && (r, c) in Slots(rects[i]);
        assert rects[i].Holds(r, c);
      }
    }
    if Covers(rects, area) {
      forall p | p in Slots(area) ensures p in Union(rects) {
        assert area.Holds(p.0, p.1);
        var i :| 0 <= i < |rects| && rects[i].Holds(p.0, p.1);
        assert p in Slots(rects[i]);
        InUnion(rects, p);
      }
    }
  }
}
