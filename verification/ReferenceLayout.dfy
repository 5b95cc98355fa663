/** Verifying a finished table against a requested layout: its dimensions, its merges, its number of cells
    and the measured sizes. The theorems say what a passed verification establishes about cells nobody looked at. */
module ReferenceLayout {
  import opened Options
  import opened Geometry
  import opened CellAddress
  import opened Numerals
  import opened TableGrid
  import opened TablePlans
  import opened ColumnStacks
  import opened RowStacks

  /** A requested merge, with zero-based anchor. */
  datatype Merge = Merge(row: nat, column: nat, rowSpan: int, columnSpan: int)

  datatype Spec = Spec(rows: int, columns: int, columnWidths: seq<int>, rowHeights: seq<int>, merges: seq<Merge>)

  datatype VerifyError = WrongDimensions | WrongMerge | WrongCellCount | OutsideGrid | WrongGeometry | WrongBorders

  /** What the layout's own validation has established: a positive grid, one size per
      row and column, merges inside the grid and anchored at different slots. */
  ghost predicate WellFormed(spec: Spec) {
    && spec.rows >= 1 && spec.columns >= 1
    && |spec.columnWidths| == spec.columns && |spec.rowHeights| == spec.rows
    && (forall k :: 0 <= k < |spec.merges| ==> MergeInGrid(spec, spec.merges[k]))
    && (forall k, l :: 0 <= k < l < |spec.merges| ==> !SameAnchor(spec.merges[k], spec.merges[l]))
  }

  predicate MergeInGrid(spec: Spec, merge: Merge) {
    && merge.rowSpan >= 1 && merge.columnSpan >= 1
    && merge.row + merge.rowSpan <= spec.rows && merge.column + merge.columnSpan <= spec.columns
    && spec.rows < MAX_LONG && spec.columns < MAX_LONG
  }

  predicate SameAnchor(a: Merge, b: Merge) { a.row == b.row && a.column == b.column }

  function MergeRect(merge: Merge): Rect { Rect(merge.row + 1, merge.column + 1, merge.rowSpan, merge.columnSpan) }

  /** The table has a cell exactly where and as large as the merge asks. */
  ghost predicate Realized(cells: seq<Cell>, merge: Merge) {
    exists i :: 0 <= i < |cells| && cells[i].Rect() == MergeRect(merge)
  }

  function Sum(xs: seq<int>): int {
    if xs == [] then 0 else Sum(xs[..|xs| - 1]) + xs[|xs| - 1]
  }

  // ----- the merge pass -----

  function ExtraSlots(merges: seq<Merge>): int {
    if merges == [] then 0
    else ExtraSlots(merges[..|merges| - 1]) + (MergeRect(merges[|merges| - 1]).Area() - 1)
  }

  /** Looks up one merge by the address of its anchor. */
  method CheckMerge(cells: seq<Cell>, byAddress: map<string, nat>, merge: Merge) returns (ok: bool)
    requires WellNamed(cells) && Indexed(cells, byAddress)
    requires merge.row < MAX_LONG && merge.column < MAX_LONG
    ensures ok ==> Realized(cells, merge)
    ensures !ok ==> !ExactlyAddressed(cells, merge)
  {
    var address := ReferenceCellAddress(merge.row, merge.column);
    AddressRoundTrip(merge.row, merge.column);
    AddressIsNormal(merge.row, merge.column);
    var found := FindIn(byAddress, address);
    if found.None? {
      return false;
    }
    var cell := cells[found.value];
    assert Named(cell);
    ok := cell.rowSpan == merge.rowSpan && cell.columnSpan == merge.columnSpan;
    assert ok ==> cells[found.value].Rect() == MergeRect(merge);
  }

  /** The merge's cell exists under its canonical address. */
  ghost predicate ExactlyAddressed(cells: seq<Cell>, merge: Merge) {
    exists i :: 0 <= i < |cells| && cells[i].address == Address(merge.row, merge.column) &&
                cells[i].Rect() == MergeRect(merge)
  }

  /** The expected number of cells after `upto` merges, as an unsigned 64-bit value. */
  function Remaining(spec: Spec, upto: nat): int
    requires upto <= |spec.merges|
  {
    (spec.rows * spec.columns - ExtraSlots(spec.merges[..upto])) % TWO_TO_64
  }

  /** One subtraction of the countdown, in unsigned 64-bit arithmetic. */
  method CountDown(expectedCells: int, spec: Spec, index: nat) returns (remaining: int)
    requires index < |spec.merges|
    requires expectedCells == Remaining(spec, index)
    ensures remaining == Remaining(spec, index + 1)
  {
    var merge := spec.merges[index];
    ghost var slots := spec.rows * spec.columns;
    assert spec.merges[..index + 1][..index] == spec.merges[..index];
    var extra := merge.rowSpan * merge.columnSpan - 1;
    WrapSubtract(slots - ExtraSlots(spec.merges[..index]), extra);
    remaining := (expectedCells - extra) % TWO_TO_64;
  }

  /** Looks up every merge, counting down the expected cells. */
  method CheckMerges(cells: seq<Cell>, byAddress: map<string, nat>, spec: Spec) returns (ok: bool, expectedCells: int)
    requires WellNamed(cells) && Indexed(cells, byAddress) && WellFormed(spec)
    ensures ok ==> forall k :: 0 <= k < |spec.merges| ==> Realized(cells, spec.merges[k])
    ensures ok ==> expectedCells == Remaining(spec, |spec.merges|)
    ensures !ok ==> exists k :: 0 <= k < |spec.merges| && !ExactlyAddressed(cells, spec.merges[k])
  {
    expectedCells := spec.rows * spec.columns % TWO_TO_64;
    for index := 0 to |spec.merges|
      invariant forall k :: 0 <= k < index ==> Realized(cells, spec.merges[k])
      invariant expectedCells == Remaining(spec, index)
    {
      expectedCells := CountDown(expectedCells, spec, index);
      assert MergeInGrid(spec, spec.merges[index]);
      var found := CheckMerge(cells, byAddress, spec.merges[index]);
      if !found {
        return false, expectedCells;
      }
    }
    ok := true;
  }

  lemma {:induction false} WrapSubtract(value: int, extra: int)
    ensures (value % TWO_TO_64 - extra) % TWO_TO_64 == (value - extra) % TWO_TO_64
  {
    var q := value / TWO_TO_64;
    assert value - extra == q * TWO_TO_64 + (value % TWO_TO_64 - extra);
    RemainderShift(value % TWO_TO_64 - extra, TWO_TO_64, q);
  }

  // ----- counting: what the number of cells says about the cells nobody looked up -----

  /** Slots beyond one per cell, over the chosen cells only. */
  ghost function ExtraOf(rects: seq<Rect>, chosen: set<nat>): int {
    if rects == [] then 0
    else
      var n := |rects| - 1;
      ExtraOf(rects[..n], chosen) + if n in chosen then rects[n].Area() - 1 else 0
  }

  lemma {:induction false} ExtraOfAll(rects: seq<Rect>, all: set<nat>)
    requires forall i :: 0 <= i < |rects| ==> i in all
    ensures ExtraOf(rects, all) == TotalArea(rects) - |rects|
  {
    if rects != [] { ExtraOfAll(rects[..|rects| - 1], all); }
  }

  lemma {:induction false} ExtraOfNone(rects: seq<Rect>, chosen: set<nat>)
    requires forall i :: 0 <= i < |rects| ==> i !in chosen
    ensures ExtraOf(rects, chosen) == 0
  {
    if rects != [] { ExtraOfNone(rects[..|rects| - 1], chosen); }
  }

  lemma {:induction false} ExtraOfAdd(rects: seq<Rect>, chosen: set<nat>, i: nat)
    requires i < |rects| && i !in chosen
    ensures ExtraOf(rects, chosen + {i}) == ExtraOf(rects, chosen) + rects[i].Area() - 1
  {
    var n := |rects| - 1;
    if i == n {
      ExtraOfSame(rects[..n], chosen, chosen + {i});
    } else {
      ExtraOfAdd(rects[..n], chosen, i);
    }
  }

  lemma {:induction false} ExtraOfSame(rects: seq<Rect>, a: set<nat>, b: set<nat>)
    requires forall i :: 0 <= i < |rects| ==> (i in a <==> i in b)
    ensures ExtraOf(rects, a) == ExtraOf(rects, b)
  {
    if rects != [] { ExtraOfSame(rects[..|rects| - 1], a, b); }
  }

  lemma {:induction false} ExtraOfSplit(rects: seq<Rect>, a: set<nat>, b: set<nat>)
    requires a !! b
    ensures ExtraOf(rects, a + b) == ExtraOf(rects, a) + ExtraOf(rects, b)
  {
    if rects != [] { ExtraOfSplit(rects[..|rects| - 1], a, b); }
  }

  lemma {:induction false} ExtraNonnegative(rects: seq<Rect>, chosen: set<nat>)
    requires AllProper(rects)
    ensures ExtraOf(rects, chosen) >= 0
    ensures ExtraOf(rects, chosen) == 0 ==>
      forall i :: 0 <= i < |rects| && i in chosen ==> rects[i].rowSpan == 1 && rects[i].columnSpan == 1
  {
    if rects != [] {
      var n := |rects| - 1;
      ExtraNonnegative(rects[..n], chosen);
      AreaOne(rects[n]);
      assert forall i :: 0 <= i < n ==> rects[..n][i] == rects[i];
    }
  }

  lemma {:induction false} AreaOne(rect: Rect)
    requires rect.Proper()
    ensures rect.Area() >= 1
    ensures rect.Area() == 1 ==> rect.rowSpan == 1 && rect.columnSpan == 1
  {
    if rect.rowSpan >= 2 {
      assert rect.rowSpan * rect.columnSpan >= 2 * rect.columnSpan;
    } else if rect.columnSpan >= 2 {
      assert rect.rowSpan * rect.columnSpan >= rect.rowSpan * 2;
    }
  }

  ghost predicate Present(rects: seq<Rect>, merge: Merge) {
    exists i :: 0 <= i < |rects| && rects[i] == MergeRect(merge)
  }

  ghost predicate PresentAmong(rects: seq<Rect>, chosen: set<nat>, merge: Merge) {
    exists i :: i in chosen && i < |rects| && rects[i] == MergeRect(merge)
  }

  /** `merged` is one cell for each of the first `upto` merges. */
  ghost predicate OneEach(rects: seq<Rect>, spec: Spec, upto: nat, merged: set<nat>)
    requires upto <= |spec.merges|
  {
    && (forall i :: i in merged ==> i < |rects| && IsMerged(rects[i], spec, upto))
    && (forall k :: 0 <= k < upto ==> PresentAmong(rects, merged, spec.merges[k]))
    && ExtraOf(rects, merged) == ExtraSlots(spec.merges[..upto])
  }

  ghost predicate IsMerged(rect: Rect, spec: Spec, upto: nat)
    requires upto <= |spec.merges|
  {
    exists k :: 0 <= k < upto && rect == MergeRect(spec.merges[k])
  }

  lemma {:induction false} OneMore(rects: seq<Rect>, spec: Spec, upto: nat, merged: set<nat>, i: nat)
    requires upto < |spec.merges| && WellFormed(spec) && OneEach(rects, spec, upto, merged)
    requires i < |rects| && rects[i] == MergeRect(spec.merges[upto])
    ensures OneEach(rects, spec, upto + 1, merged + {i})
  {
    assert i !in merged by {
      assert forall k :: 0 <= k < upto ==> !SameAnchor(spec.merges[k], spec.merges[upto]);
    }
    ExtraOfAdd(rects, merged, i);
    assert spec.merges[..upto + 1][..upto] == spec.merges[..upto];
    forall k | 0 <= k < upto + 1 ensures PresentAmong(rects, merged + {i}, spec.merges[k]) {
      if k < upto {
        var j :| j in merged && j < |rects| && rects[j] == MergeRect(spec.merges[k]);
        assert j in merged + {i};
      } else {
        assert i in merged + {i};
      }
    }
  }

  /** The cells that realize the first `upto` merges: one each, because the anchors differ. */
  lemma {:induction false} MergedCells(rects: seq<Rect>, spec: Spec, upto: nat) returns (merged: set<nat>)
    requires upto <= |spec.merges| && WellFormed(spec)
    requires forall k :: 0 <= k < upto ==> Present(rects, spec.merges[k])
    ensures OneEach(rects, spec, upto, merged)
  {
    if upto == 0 {
      merged := {};
      ExtraOfNone(rects, merged);
    } else {
      merged := MergedCells(rects, spec, upto - 1);
      assert Present(rects, spec.merges[upto - 1]);
      var i :| 0 <= i < |rects| && rects[i] == MergeRect(spec.merges[upto - 1]);
      OneMore(rects, spec, upto - 1, merged, i);
      merged := merged + {i};
    }
  }

  /** The table is the requested one: every merge is a cell and every other cell is a single slot. */
  ghost predicate AsRequested(cells: seq<Cell>, spec: Spec) {
    && (forall k :: 0 <= k < |spec.merges| ==> Realized(cells, spec.merges[k]))
    && (forall i :: 0 <= i < |cells| ==> SingleOrMerged(cells[i].Rect(), spec))
  }

  ghost predicate SingleOrMerged(rect: Rect, spec: Spec) {
    (rect.rowSpan == 1 && rect.columnSpan == 1) ||
    exists k :: 0 <= k < |spec.merges| && rect == MergeRect(spec.merges[k])
  }

  /** The counting argument. In an exact cover that realizes every merge, the number of cells is the expected one
      exactly when no other cell is larger than a slot; and no 64-bit wrap can hide a difference. */
  lemma {:induction false} CountDecides(cells: seq<Cell>, spec: Spec)
    requires WellFormed(spec) && Tiles(Rects(cells), Grid(spec.rows, spec.columns))
    requires GridAllowed(spec.rows, spec.columns)
    requires forall k :: 0 <= k < |spec.merges| ==> Realized(cells, spec.merges[k])
    ensures |cells| == Remaining(spec, |spec.merges|) <==> AsRequested(cells, spec)
  {
    var merged := MergedInTable(cells, spec);
    AreaDecidesCover(Rects(cells), Grid(spec.rows, spec.columns));
    Remainder(Rects(cells), merged, spec.rows * spec.columns, ExtraSlots(spec.merges));
    var rest := Others(|cells|, merged);
    if ExtraOf(Rects(cells), rest) == 0 {
      NothingElse(cells, spec, merged);
    }
    if AsRequested(cells, spec) {
      RestAreSingle(cells, spec, merged, rest);
    }
  }

  /** The cells of the table that realize the merges, and the count that is expected with them. */
  lemma {:induction false} MergedInTable(cells: seq<Cell>, spec: Spec) returns (merged: set<nat>)
    requires WellFormed(spec)
    requires forall k :: 0 <= k < |spec.merges| ==> Realized(cells, spec.merges[k])
    ensures forall i :: i in merged ==> i < |cells| && IsMerged(Rects(cells)[i], spec, |spec.merges|)
    ensures forall k :: 0 <= k < |spec.merges| ==> PresentAmong(Rects(cells), merged, spec.merges[k])
    ensures ExtraOf(Rects(cells), merged) == ExtraSlots(spec.merges)
    ensures Remaining(spec, |spec.merges|) == (spec.rows * spec.columns - ExtraSlots(spec.merges)) % TWO_TO_64
  {
    var rects := Rects(cells);
    forall k | 0 <= k < |spec.merges| ensures Present(rects, spec.merges[k]) {
      var i :| 0 <= i < |cells| && cells[i].Rect() == MergeRect(spec.merges[k]);
      assert rects[i] == MergeRect(spec.merges[k]);
    }
    assert spec.merges[..|spec.merges|] == spec.merges;
    merged := MergedCells(rects, spec, |spec.merges|);
  }

  lemma {:induction false} NothingElse(cells: seq<Cell>, spec: Spec, merged: set<nat>)
    requires forall i :: i in merged ==> i < |cells| && IsMerged(Rects(cells)[i], spec, |spec.merges|)
    requires forall i :: i in Others(|cells|, merged) ==>
      Rects(cells)[i].rowSpan == 1 && Rects(cells)[i].columnSpan == 1
    ensures forall i :: 0 <= i < |cells| ==> SingleOrMerged(cells[i].Rect(), spec)
  {
    forall i | 0 <= i < |cells| ensures SingleOrMerged(cells[i].Rect(), spec) {
      assert i in merged || i in Others(|cells|, merged);
      assert i in merged ==> IsMerged(Rects(cells)[i], spec, |spec.merges|);
    }
  }

  ghost function Others(n: nat, merged: set<nat>): set<nat> {
    set i: nat | 0 <= i < n && i !in merged
  }

  /** The cells not named by a merge hold exactly the extra slots that are left over. */
  lemma {:induction false} Remainder(rects: seq<Rect>, merged: set<nat>, slots: int, extra: int)
    requires AllProper(rects) && TotalArea(rects) == slots && 0 < slots <= MAXIMUM_PHYSICAL_SLOTS
    requires ExtraOf(rects, merged) == extra && forall i :: i in merged ==> i < |rects|
    ensures ExtraOf(rects, Others(|rects|, merged)) == slots - |rects| - extra
    ensures |rects| == (slots - extra) % TWO_TO_64 <==> ExtraOf(rects, Others(|rects|, merged)) == 0
    ensures ExtraOf(rects, Others(|rects|, merged)) == 0 ==>
      forall i :: i in Others(|rects|, merged) ==> rects[i].rowSpan == 1 && rects[i].columnSpan == 1
  {
    var rest := Others(|rects|, merged);
    ExtraOfAll(rects, merged + rest);
    ExtraOfSplit(rects, merged, rest);
    ExtraNonnegative(rects, merged);
    ExtraNonnegative(rects, rest);
    assert 0 <= slots - extra < TWO_TO_64;
  }

  /** If the table is as requested, a cell outside the merges is a single slot: two different
      cells cannot both be the realization of one merge. */
  lemma {:induction false} RestAreSingle(cells: seq<Cell>, spec: Spec, merged: set<nat>, rest: set<nat>)
    requires WellFormed(spec) && Tiles(Rects(cells), Grid(spec.rows, spec.columns)) && AsRequested(cells, spec)
    requires rest == Others(|cells|, merged)
    requires forall i :: i in merged ==> i < |cells|
    requires forall k :: 0 <= k < |spec.merges| ==> PresentAmong(Rects(cells), merged, spec.merges[k])
    ensures ExtraOf(Rects(cells), rest) == 0
  {
    var rects := Rects(cells);
    forall i | i in rest ensures rects[i].Area() == 1 {
      assert SingleOrMerged(cells[i].Rect(), spec);
      if k :| 0 <= k < |spec.merges| && rects[i] == MergeRect(spec.merges[k]) {
        assert PresentAmong(rects, merged, spec.merges[k]);
        var j :| j in merged && j < |rects| && rects[j] == MergeRect(spec.merges[k]);
        assert rects[i].Proper() && Intersects(rects[i], rects[j]) && Intersects(rects[j], rects[i]);
        assert i == j;
      }
    }
    ExtraOfSingles(rects, rest);
  }

  lemma {:induction false} ExtraOfSingles(rects: seq<Rect>, chosen: set<nat>)
    requires forall i :: 0 <= i < |rects| && i in chosen ==> rects[i].Area() == 1
    ensures ExtraOf(rects, chosen) == 0
  {
    if rects != [] {
      assert forall i :: 0 <= i < |rects| - 1 ==> rects[..|rects| - 1][i] == rects[i];
      ExtraOfSingles(rects[..|rects| - 1], chosen);
    }
  }

  /** A verified table is determined slot by slot: the cell over a slot is the merge
      that contains the slot, or else the slot by itself. */
  lemma {:induction false} SlotAsRequested(cells: seq<Cell>, spec: Spec, i: nat, r: int, c: int)
    requires Tiles(Rects(cells), Grid(spec.rows, spec.columns)) && AsRequested(cells, spec)
    requires i < |cells| && cells[i].Rect().Holds(r, c)
    ensures forall k :: 0 <= k < |spec.merges| && MergeRect(spec.merges[k]).Holds(r, c) ==>
              cells[i].Rect() == MergeRect(spec.merges[k])
    ensures (forall k :: 0 <= k < |spec.merges| ==> !MergeRect(spec.merges[k]).Holds(r, c)) ==>
              cells[i].Rect() == Rect(r, c, 1, 1)
  {
    forall k | 0 <= k < |spec.merges| && MergeRect(spec.merges[k]).Holds(r, c)
      ensures cells[i].Rect() == MergeRect(spec.merges[k])
    {
      assert Realized(cells, spec.merges[k]);
      var j :| 0 <= j < |cells| && cells[j].Rect() == MergeRect(spec.merges[k]);
      OwnerUnique(cells, i, j, r, c);
    }
    assert SingleOrMerged(cells[i].Rect(), spec);
  }

  // ----- measured sizes -----

  function ExpectedWidth(spec: Spec, rect: Rect): int
    requires |spec.columnWidths| == spec.columns && Inside(rect, Grid(spec.rows, spec.columns)) && rect.Proper()
  {
    Sum(spec.columnWidths[rect.column - 1..rect.Right()])
  }

  function ExpectedHeight(spec: Spec, rect: Rect): int
    requires |spec.rowHeights| == spec.rows && Inside(rect, Grid(spec.rows, spec.columns)) && rect.Proper()
  {
    Sum(spec.rowHeights[rect.row - 1..rect.Bottom()])
  }

  /** Every measured size is the sum of the sizes requested for the rows and columns the cell spans. */
  ghost predicate Measured(cell: Cell, spec: Spec)
    requires |spec.columnWidths| == spec.columns && |spec.rowHeights| == spec.rows
    requires Inside(cell.Rect(), Grid(spec.rows, spec.columns)) && cell.Rect().Proper()
  {
    && (cell.width >= 0 ==> cell.width == ExpectedWidth(spec, cell.Rect()))
    && (cell.height >= 0 ==> cell.height == ExpectedHeight(spec, cell.Rect()))
  }

  ghost predicate AllMeasured(cells: seq<Cell>, spec: Spec)
    requires WellFormed(spec)
  {
    forall i :: 0 <= i < |cells| ==> MeasuredInGrid(cells[i], spec)
  }

  ghost predicate MeasuredInGrid(cell: Cell, spec: Spec)
    requires WellFormed(spec)
  {
    cell.Rect().Proper() && Inside(cell.Rect(), Grid(spec.rows, spec.columns)) && Measured(cell, spec)
  }

  method SumRange(sizes: seq<int>, first: nat, count: nat) returns (sum: int)
    requires first + count <= |sizes|
    ensures sum == Sum(sizes[first..first + count])
  {
    sum := 0;
    for k := first to first + count
      invariant sum == Sum(sizes[first..k])
    {
      ghost var longer := sizes[first..k + 1];
      assert longer[..k - first] == sizes[first..k] && longer[k - first] == sizes[k];
      sum := sum + sizes[k];
    }
  }

  method CheckCell(cell: Cell, spec: Spec) returns (error: Option<VerifyError>)
    requires |spec.columnWidths| == spec.columns && |spec.rowHeights| == spec.rows
    requires cell.Rect().Proper() && Inside(cell.Rect(), Grid(spec.rows, spec.columns))
    ensures error.None? <==> Measured(cell, spec)
    ensures error.Some? ==> error.value == WrongGeometry
  {
    if cell.row < 1 || cell.column < 1 ||
       cell.row + cell.rowSpan - 1 > spec.rows || cell.column + cell.columnSpan - 1 > spec.columns {
      return Some(OutsideGrid);
    }
    var expectedWidth := SumRange(spec.columnWidths, cell.column - 1, cell.columnSpan);
    var expectedHeight := SumRange(spec.rowHeights, cell.row - 1, cell.rowSpan);
    if (cell.width >= 0 && cell.width != expectedWidth) || (cell.height >= 0 && cell.height != expectedHeight) {
      return Some(WrongGeometry);
    }
    error := None;
  }

  /** The whole verification. What it establishes goes beyond the cells it looks up: the table is
      the requested one everywhere, and it cannot fail for a cell outside the grid. `built` says whether the
      topology could be built again, `borders` what the reading of the borders at the end answers. */
  method VerifyTopology(built: bool, cells: seq<Cell>, byAddress: map<string, nat>, rows: nat, columns: nat,
                        spec: Spec, borders: bool)
    returns (error: Option<VerifyError>)
    requires WellFormed(spec)
    requires built ==> Plannable(cells, byAddress, rows, columns) && GridAllowed(rows, columns)
    ensures error.None? ==> built && borders && rows == spec.rows && columns == spec.columns
    ensures error.None? ==> AsRequested(cells, spec) && AllMeasured(cells, spec)
    ensures error == Some(WrongDimensions) <==> !built || rows != spec.rows || columns != spec.columns
    ensures error == Some(WrongMerge) ==>
      exists k :: 0 <= k < |spec.merges| && !ExactlyAddressed(cells, spec.merges[k])
    ensures error == Some(WrongCellCount) ==> !AsRequested(cells, spec)
    ensures error == Some(WrongGeometry) ==> !AllMeasured(cells, spec)
    ensures error == Some(WrongBorders) ==> !borders && AsRequested(cells, spec) && AllMeasured(cells, spec)
    ensures error != Some(OutsideGrid)
  {
    if !built || rows != spec.rows || columns != spec.columns {
      return Some(WrongDimensions);
    }
    var found, expectedCells := CheckMerges(cells, byAddress, spec);
    if !found {
      return Some(WrongMerge);
    }
    CountDecides(cells, spec);
    if |cells| != expectedCells {
      return Some(WrongCellCount);
    }
    error := CheckCells(cells, spec);
    if error.None? && !borders {
      error := Some(WrongBorders);
    }
  }

  method CheckCells(cells: seq<Cell>, spec: Spec) returns (error: Option<VerifyError>)
    requires WellFormed(spec) && Tiles(Rects(cells), Grid(spec.rows, spec.columns))
    ensures error.None? <==> AllMeasured(cells, spec)
    ensures error.Some? ==> error.value == WrongGeometry
  {
    for index := 0 to |cells|
      invariant forall i :: 0 <= i < index ==> MeasuredInGrid(cells[i], spec)
    {
      assert Rects(cells)[index].Proper() && Inside(Rects(cells)[index], Grid(spec.rows, spec.columns));
      error := CheckCell(cells[index], spec);
      if error.Some? {
        return;
      }
    }
    error := None;
  }

  // ----- heights of a column -----

  function Heights(cells: seq<Cell>): (heights: seq<int>)
    ensures |heights| == |cells| && forall i :: 0 <= i < |cells| ==> heights[i] == cells[i].height
  {
    seq(|cells|, i requires 0 <= i < |cells| => cells[i].height)
  }

  lemma {:induction false} SumSplit(xs: seq<int>, a: nat, b: nat)
    requires a <= b <= |xs|
    ensures Sum(xs[..a]) + Sum(xs[a..b]) == Sum(xs[..b])
    decreases b - a
  {
    if a < b {
      SumSplit(xs, a, b - 1);
      assert xs[a..b][..b - 1 - a] == xs[a..b - 1];
      assert xs[..b][..b - 1] == xs[..b - 1];
    }
  }

  ghost predicate FullyMeasured(sorted: seq<Cell>, spec: Spec)
    requires WellFormed(spec)
  {
    AllMeasured(sorted, spec) && forall k :: 0 <= k < |sorted| ==> sorted[k].height >= 0
  }

  lemma {:induction false} StackHeight(sorted: seq<Cell>, spec: Spec, k: nat)
    requires WellFormed(spec) && Stacked(sorted, spec.rows) && FullyMeasured(sorted, spec)
    requires k < |sorted|
    ensures Sum(Heights(sorted)[..k + 1]) == Sum(spec.rowHeights[..sorted[k].Rect().Bottom()])
  {
    var cell := sorted[k];
    assert MeasuredInGrid(cell, spec);
    assert Heights(sorted)[..k + 1][..k] == Heights(sorted)[..k];
    SumSplit(spec.rowHeights, cell.row - 1, cell.Rect().Bottom());
    if k > 0 {
      StackHeight(sorted, spec, k - 1);
      assert sorted[k - 1 + 1].row == sorted[k - 1].Rect().Bottom() + 1;
    }
  }

  /** In a verified table whose heights were all measured, the cells of any physical column stack from
      the first row to the last and their heights add up to the requested total. */
  lemma {:induction false} ColumnHeight(
    cells: seq<Cell>, spec: Spec, column: int, sorted: seq<Cell>)
    requires WellFormed(spec) && Tiles(Rects(cells), Grid(spec.rows, spec.columns)) && 1 <= column <= spec.columns
    requires SortedByPosition(sorted) && multiset(sorted) == multiset(Meeting(cells, column))
    requires FullyMeasured(cells, spec)
    ensures Stacked(sorted, spec.rows) && Sum(Heights(sorted)) == Sum(spec.rowHeights)
  {
    ColumnIsStacked(cells, spec.rows, spec.columns, column, sorted);
    EntriesOf(cells, Grid(spec.rows, spec.columns), column, sorted);
    ColumnMeasured(cells, spec, column, sorted);
    ColumnTotal(sorted, spec);
  }

  lemma {:induction false} ColumnMeasured(cells: seq<Cell>, spec: Spec, column: int, sorted: seq<Cell>)
    requires WellFormed(spec) && ColumnEntries(cells, column, sorted) && FullyMeasured(cells, spec)
    ensures FullyMeasured(sorted, spec)
  {
    forall k | 0 <= k < |sorted| ensures MeasuredInGrid(sorted[k], spec) && sorted[k].height >= 0 {
      assert sorted[k] in cells;
      var i :| 0 <= i < |cells| && cells[i] == sorted[k];
    }
  }

  lemma {:induction false} ColumnTotal(sorted: seq<Cell>, spec: Spec)
    requires WellFormed(spec) && Stacked(sorted, spec.rows) && FullyMeasured(sorted, spec)
    ensures Sum(Heights(sorted)) == Sum(spec.rowHeights)
  {
    StackHeight(sorted, spec, |sorted| - 1);
    assert Heights(sorted)[..|sorted|] == Heights(sorted);
    assert spec.rowHeights[..spec.rows] == spec.rowHeights;
  }

  // ----- widths of a row -----

  function Widths(cells: seq<Cell>): (widths: seq<int>)
    ensures |widths| == |cells| && forall i :: 0 <= i < |cells| ==> widths[i] == cells[i].width
  {
    seq(|cells|, i requires 0 <= i < |cells| => cells[i].width)
  }

  ghost predicate WidthsMeasured(sorted: seq<Cell>, spec: Spec)
    requires WellFormed(spec)
  {
    AllMeasured(sorted, spec) && forall k :: 0 <= k < |sorted| ==> sorted[k].width >= 0
  }

  lemma {:induction false} RowSoFar(sorted: seq<Cell>, spec: Spec, k: nat)
    requires WellFormed(spec) && SideBySide(sorted, spec.columns) && WidthsMeasured(sorted, spec)
    requires k < |sorted|
    ensures Sum(Widths(sorted)[..k + 1]) == Sum(spec.columnWidths[..sorted[k].Rect().Right()])
  {
    var cell := sorted[k];
    assert MeasuredInGrid(cell, spec);
    assert Widths(sorted)[..k + 1][..k] == Widths(sorted)[..k];
    SumSplit(spec.columnWidths, cell.column - 1, cell.Rect().Right());
    if k > 0 {
      RowSoFar(sorted, spec, k - 1);
      assert sorted[k - 1 + 1].column == sorted[k - 1].Rect().Right() + 1;
    }
  }

  /** In a verified table whose widths were all measured, the cells of any physical row follow each other from
      the first column to the last and their widths add up to the requested total. */
  lemma {:induction false} RowWidth(cells: seq<Cell>, spec: Spec, row: int, sorted: seq<Cell>)
    requires WellFormed(spec) && Tiles(Rects(cells), Grid(spec.rows, spec.columns)) && 1 <= row <= spec.rows
    requires RowInOrder(cells, row, sorted) && WidthsMeasured(cells, spec)
    ensures SideBySide(sorted, spec.columns) && Sum(Widths(sorted)) == Sum(spec.columnWidths)
  {
    RowIsSideBySide(cells, spec.rows, spec.columns, row, sorted);
    RowMeasured(cells, spec, row, sorted);
    RowTotal(sorted, spec);
  }

  lemma {:induction false} RowMeasured(cells: seq<Cell>, spec: Spec, row: int, sorted: seq<Cell>)
    requires WellFormed(spec) && RowInOrder(cells, row, sorted) && WidthsMeasured(cells, spec)
    ensures WidthsMeasured(sorted, spec)
  {
    forall k | 0 <= k < |sorted| ensures MeasuredInGrid(sorted[k], spec) && sorted[k].width >= 0 {
      assert sorted[k] in cells;
      var i :| 0 <= i < |cells| && cells[i] == sorted[k];
    }
  }

  lemma {:induction false} RowTotal(sorted: seq<Cell>, spec: Spec)
    requires WellFormed(spec) && SideBySide(sorted, spec.columns) && WidthsMeasured(sorted, spec)
    ensures Sum(Widths(sorted)) == Sum(spec.columnWidths)
  {
    RowSoFar(sorted, spec, |sorted| - 1);
    assert Widths(sorted)[..|sorted|] == Widths(sorted);
    assert spec.columnWidths[..spec.columns] == spec.columnWidths;
  }

  /** One slot is expected to have the size requested for its column and row. */
  lemma {:induction false} SlotSize(spec: Spec, rect: Rect)
    requires WellFormed(spec) && rect.Proper() && Inside(rect, Grid(spec.rows, spec.columns))
    ensures rect.columnSpan == 1 ==> ExpectedWidth(spec, rect) == spec.columnWidths[rect.column - 1]
    ensures rect.rowSpan == 1 ==> ExpectedHeight(spec, rect) == spec.rowHeights[rect.row - 1]
  {
    SumOne(spec.columnWidths, rect.column - 1);
    SumOne(spec.rowHeights, rect.row - 1);
  }

  /** A cell cut in two by a vertical line is as wide as its parts together. */
  lemma {:induction false} WidthsAddUp(spec: Spec, whole: Rect, left: Rect, right: Rect)
    requires WellFormed(spec) && Inside(whole, Grid(spec.rows, spec.columns)) && left.Proper() && right.Proper()
    requires left == whole.(columnSpan := left.columnSpan)
    requires right == whole.(column := left.Right() + 1, columnSpan := whole.columnSpan - left.columnSpan)
    ensures ExpectedWidth(spec, whole) == ExpectedWidth(spec, left) + ExpectedWidth(spec, right)
  {
    SumCut(spec.columnWidths, whole.column - 1, left.Right(), whole.Right());
  }

  /** A cell cut in two by a horizontal line is as high as its parts together. */
  lemma {:induction false} HeightsAddUp(spec: Spec, whole: Rect, upper: Rect, lower: Rect)
    requires WellFormed(spec) && Inside(whole, Grid(spec.rows, spec.columns)) && upper.Proper() && lower.Proper()
    requires upper == whole.(rowSpan := upper.rowSpan)
    requires lower == whole.(row := upper.Bottom() + 1, rowSpan := whole.rowSpan - upper.rowSpan)
    ensures ExpectedHeight(spec, whole) == ExpectedHeight(spec, upper) + ExpectedHeight(spec, lower)
  {
    SumCut(spec.rowHeights, whole.row - 1, upper.Bottom(), whole.Bottom());
  }

  lemma {:induction false} SumOne(xs: seq<int>, k: nat)
    requires k < |xs|
    ensures Sum(xs[k..k + 1]) == xs[k]
  {
    assert xs[k..k + 1][..0] == [];
  }

  lemma {:induction false} SumCut(xs: seq<int>, a: nat, b: nat, c: nat)
    requires a <= b <= c <= |xs|
    ensures Sum(xs[a..c]) == Sum(xs[a..b]) + Sum(xs[b..c])
  {
    SumSplit(xs, a, b);
    SumSplit(xs, b, c);
    SumSplit(xs, a, c);
  }
}
