/** Any finite set of disjoint rectangles can be ordered so that moving to the right across a shared
    row, or down across a shared column, always goes forward. The table's neighbour graph is therefore acyclic. */
module NeighbourOrder {
  import opened Counting
  import opened Geometry

  predicate RowsOverlap(a: Rect, b: Rect) { a.row <= b.Bottom() && b.row <= a.Bottom() }

  predicate ColumnsOverlap(a: Rect, b: Rect) { a.column <= b.Right() && b.column <= a.Right() }

  predicate LeftOf(a: Rect, b: Rect) { RowsOverlap(a, b) && a.Right() < b.column }

  predicate Above(a: Rect, b: Rect) { ColumnsOverlap(a, b) && a.Bottom() < b.row }

  predicate Before(a: Rect, b: Rect) { LeftOf(a, b) || Above(a, b) }

  ghost predicate Placed(rects: seq<Rect>) {
    AllProper(rects) && Disjoint(rects) && forall i :: 0 <= i < |rects| ==> rects[i].column >= 1
  }

  ghost predicate Indices(some: set<nat>, rects: seq<Rect>) {
    forall i :: i in some ==> i < |rects|
  }

  /** Nothing of `some` lies to the left of rectangle `c` in a row they share. */
  ghost predicate LeftFree(rects: seq<Rect>, some: set<nat>, c: nat)
    requires Indices(some, rects) && c < |rects|
  {
    forall d :: d in some ==> !LeftOf(rects[d], rects[c])
  }

  lemma {:induction false} LeastBy(some: set<nat>, key: nat -> int) returns (least: nat)
    requires some != {}
    ensures least in some && forall d :: d in some ==> key(least) <= key(d)
  {
    least :| least in some;
    var one, rest := least, some - {least};
    if rest != {} {
      var other := LeastBy(rest, key);
      if key(other) < key(one) { least := other; }
    }
    forall d | d in some ensures key(least) <= key(d) {
      assert d == one || d in rest;
    }
  }

  lemma {:induction false} Crossing(c: Rect, e: Rect, f: Rect)
    requires c.Proper() && e.Proper() && f.Proper() && !Intersects(f, c) && LeftOf(f, e)
    requires e.Bottom() < c.row <= f.Bottom() && e.column <= c.Right()
    ensures LeftOf(f, c)
  {
  }

  /** Below the topmost left-free rectangle `c`, nothing can start: walking left from a rectangle above `c`
      either crosses into the rows of `c`, or reaches a left-free rectangle higher up. */
  lemma {:induction false} NothingAbove(rects: seq<Rect>, some: set<nat>, c: nat, e: nat)
    requires Placed(rects) && Indices(some, rects) && c in some && e in some
    requires LeftFree(rects, some, c)
    requires forall d :: d in some && LeftFree(rects, some, d) ==> rects[c].row <= rects[d].row
    requires rects[e].Bottom() < rects[c].row && rects[e].column <= rects[c].Right()
    ensures false
    decreases rects[e].column
  {
    assert rects[e].row < rects[c].row;
    var f :| f in some && LeftOf(rects[f], rects[e]);
    if rects[f].Bottom() < rects[c].row {
      NothingAbove(rects, some, c, f);
    } else {
      assert f != c;
      Crossing(rects[c], rects[e], rects[f]);
    }
  }

  /** Some rectangle has no other to its left in a shared row nor above it in a shared column. */
  lemma {:induction false} FirstExists(rects: seq<Rect>, some: set<nat>) returns (first: nat)
    requires Placed(rects) && Indices(some, rects) && some != {}
    ensures first in some && forall d :: d in some ==> !Before(rects[d], rects[first])
  {
    var leftmost := LeastBy(some, (i: nat) => if i < |rects| then rects[i].column else 0);
    var free := set d | d in some && LeftFree(rects, some, d);
    assert leftmost in free by {
      forall d | d in some ensures !LeftOf(rects[d], rects[leftmost]) {
        assert rects[d].Proper() && rects[leftmost].column <= rects[d].column;
      }
    }
    first := LeastBy(free, (i: nat) => if i < |rects| then rects[i].row else 0);
    assert forall d :: d in free ==> rects[first].row <= rects[d].row;
    forall d | d in some ensures !Above(rects[d], rects[first]) {
      if Above(rects[d], rects[first]) {
        NothingAbove(rects, some, first, d);
      }
    }
  }

  /** `order` lists `some` without repetition, and no later entry comes before an earlier one. */
  ghost predicate Sorted(rects: seq<Rect>, some: set<nat>, order: seq<nat>) {
    && Indices(some, rects)
    && (forall i :: i in order <==> i in some)
    && (forall i, j :: 0 <= i < j < |order| ==> order[i] != order[j])
    && (forall i, j :: 0 <= i <= j < |order| ==>
          order[i] < |rects| && order[j] < |rects| && !Before(rects[order[j]], rects[order[i]]))
  }

  lemma {:induction false} OrderExists(rects: seq<Rect>, some: set<nat>) returns (order: seq<nat>)
    requires Placed(rects) && Indices(some, rects)
    ensures Sorted(rects, some, order)
    decreases some
  {
    if some == {} {
      order := [];
    } else {
      var first := FirstExists(rects, some);
      var rest := OrderExists(rects, some - {first});
      order := [first] + rest;
      assert forall j :: 1 <= j < |order| ==> order[j] == rest[j - 1] && order[j] in some;
    }
  }

  ghost predicate Walk(rects: seq<Rect>, walk: seq<nat>) {
    (forall k :: 0 <= k < |walk| ==> walk[k] < |rects|) &&
    forall k :: 0 <= k < |walk| - 1 ==> Before(rects[walk[k]], rects[walk[k + 1]])
  }

  ghost function Rank(order: seq<nat>, i: nat): (r: nat)
    requires i in order
    ensures r < |order| && order[r] == i
  {
    var r :| 0 <= r < |order| && order[r] == i;
    r
  }

  ghost function UpTo(n: nat): (all: set<nat>)
    ensures forall k :: k in all <==> 0 <= k < n
    ensures |all| == n
  {
    if n == 0 then {} else UpTo(n - 1) + {n - 1}
  }

  ghost function Everything(rects: seq<Rect>): set<nat> {
    UpTo(|rects|)
  }

  /** Every step of a walk raises the rank, so no walk visits a rectangle twice. */
  lemma {:induction false} WalkClimbs(rects: seq<Rect>, order: seq<nat>, walk: seq<nat>, i: nat, j: nat)
    requires Sorted(rects, Everything(rects), order) && Walk(rects, walk)
    requires i < j < |walk|
    ensures walk[i] in order && walk[j] in order && Rank(order, walk[i]) < Rank(order, walk[j])
    decreases j
  {
    assert Before(rects[walk[j - 1]], rects[walk[j]]);
    assert walk[i] in order && walk[j - 1] in order && walk[j] in order;
    if i < j - 1 {
      WalkClimbs(rects, order, walk, i, j - 1);
    }
  }

  lemma {:induction false} NoCycle(rects: seq<Rect>, walk: seq<nat>)
    requires Placed(rects) && Walk(rects, walk)
    ensures forall i, j :: 0 <= i < j < |walk| ==> walk[i] != walk[j]
    ensures |walk| <= |rects|
  {
    var order := OrderExists(rects, Everything(rects));
    forall i, j | 0 <= i < j < |walk| ensures walk[i] != walk[j] {
      WalkClimbs(rects, order, walk, i, j);
    }
    CountDistinct(walk, |rects|);
  }

  lemma {:induction false} CountDistinct(xs: seq<nat>, bound: nat)
    requires forall i :: 0 <= i < |xs| ==> xs[i] < bound
    requires forall i, j :: 0 <= i < j < |xs| ==> xs[i] != xs[j]
    ensures |xs| <= bound
  {
    var members := set x | x in xs;
    DistinctIffSize(xs);
    SubsetCount(members, UpTo(bound));
  }
}
