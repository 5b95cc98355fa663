/**
 * Chains of right and down moves inside a set of allowed cells, and the invariant of a breadth-first search for them.
 */
module NeighbourPaths {
  import opened Options
  import opened Geometry
  import opened TableGrid
  import NeighbourOrder

  datatype Step = Step(direction: Direction, destination: string)

  /** A table's neighbour links, as the search sees them. */
  datatype Links = Links(cells: seq<Cell>, byAddress: map<string, nat>, allowed: set<string>)

  predicate Valid(g: Links) {
    forall a :: a in g.byAddress ==> g.byAddress[a] < |g.cells|
  }

  predicate Edge(g: Links, from: string, direction: Direction, to: string)
    requires Valid(g)
  {
    && from in g.byAddress && g.cells[g.byAddress[from]].Neighbour(direction) == to
    && to != "" && to in g.allowed
  }

  function Last(start: string, path: seq<Step>): string {
    if path == [] then start else path[|path| - 1].destination
  }

  /** `path` starts at `start`, follows actual neighbour links, and stays inside the allowed cells. */
  predicate IsChain(g: Links, start: string, path: seq<Step>)
    requires Valid(g)
  {
    path == [] ||
    (IsChain(g, start, path[..|path| - 1]) &&
     Edge(g, Last(start, path[..|path| - 1]), path[|path| - 1].direction, path[|path| - 1].destination))
  }

  // ----- search state -----

  datatype Previous = Previous(address: string, direction: Direction)

  /** Discovered addresses with where they were discovered from, the addresses still to expand,
      and (for the proof) the distance at which each was discovered. */
  datatype Search = Search(pending: seq<string>, previous: map<string, Previous>, distance: map<string, nat>)

  /** The chain recorded for a discovered address has the recorded length. */
  ghost predicate Traced(g: Links, start: string, s: Search)
    requires Valid(g)
  {
    && s.distance.Keys == s.previous.Keys
    && start in s.previous && s.distance[start] == 0
    && forall a :: a in s.previous && a != start ==>
         var p := s.previous[a];
         p.address in s.previous && s.distance[a] == s.distance[p.address] + 1 && Edge(g, p.address, p.direction, a)
  }

  /** Pending addresses are ordered by distance, and span at most two consecutive levels. */
  ghost predicate Layered(s: Search) {
    && (forall i :: 0 <= i < |s.pending| ==> s.pending[i] in s.distance)
    && (forall i, j :: 0 <= i <= j < |s.pending| ==>
          s.distance[s.pending[i]] <= s.distance[s.pending[j]] <= s.distance[s.pending[i]] + 1)
    && (s.pending != [] ==>
          forall a :: a in s.distance && a !in s.pending ==> s.distance[a] <= s.distance[s.pending[0]])
  }

  /** Every link out of an expanded address leads to an address discovered at most one level later. */
  ghost predicate Expanded(g: Links, s: Search)
    requires Valid(g)
  {
    forall a, d, b :: a in s.distance && a !in s.pending && Edge(g, a, d, b) ==>
                        b in s.distance && s.distance[b] <= s.distance[a] + 1
  }

  ghost predicate Searching(g: Links, start: string, s: Search)
    requires Valid(g)
  {
    Traced(g, start, s) && Layered(s) && Expanded(g, s)
  }

  /** Any chain either has already been overtaken by the search, or is longer than the level now being expanded. */
  lemma {:induction false} ChainReached(g: Links, start: string, s: Search, path: seq<Step>)
    requires Valid(g) && Searching(g, start, s) && IsChain(g, start, path)
    ensures
      var end := Last(start, path);
      || (end in s.distance && s.distance[end] <= |path|)
      || (s.pending != [] && s.distance[s.pending[0]] < |path|)
  {
    if path != [] {
      var init := path[..|path| - 1];
      ChainReached(g, start, s, init);
      var y := Last(start, init);
      assert Edge(g, y, path[|path| - 1].direction, path[|path| - 1].destination);
      if y in s.distance && s.distance[y] <= |init| && y in s.pending {
        var i :| 0 <= i < |s.pending| && s.pending[i] == y;
        assert s.distance[s.pending[0]] <= s.distance[s.pending[i]];
      }
    }
  }

  /** The chain read back from the discovery records. */
  ghost function Traceback(g: Links, start: string, s: Search, a: string): (path: seq<Step>)
    requires Valid(g) && Traced(g, start, s) && a in s.previous
    ensures IsChain(g, start, path) && Last(start, path) == a && |path| == s.distance[a]
    decreases s.distance[a]
  {
    if a == start then []
    else
      var p := s.previous[a];
      var init := Traceback(g, start, s, p.address);
      var path := init + [Step(p.direction, a)];
      assert path[..|path| - 1] == init;
      path
  }

  /** Expanding the front of the queue: what holds while its two links are being looked at.
      `head` has been taken off the queue but is not finished. */
  ghost predicate Expanding(g: Links, start: string, s: Search, head: string, finished: set<Direction>)
    requires Valid(g)
  {
    && Traced(g, start, s)
    && HeadLayered(s, head)
    && ExpandedBut(g, s, head, finished)
  }

  /** Everything is expanded, except that of the head only some links are done. */
  ghost predicate ExpandedBut(g: Links, s: Search, head: string, finished: set<Direction>)
    requires Valid(g)
  {
    forall a, d, b :: a in s.distance && a !in s.pending && Edge(g, a, d, b) && (a != head || d in finished) ==>
                        b in s.distance && s.distance[b] <= s.distance[a] + 1
  }

  ghost predicate HeadLayered(s: Search, head: string) {
    && head in s.distance && Layered(s)
    && (forall i :: 0 <= i < |s.pending| ==>
          s.distance[head] <= s.distance[s.pending[i]] <= s.distance[head] + 1)
    && (forall a :: a in s.distance && a !in s.pending ==> s.distance[a] <= s.distance[head])
  }

  lemma {:induction false} TakeHead(g: Links, start: string, s: Search)
    requires Valid(g) && Searching(g, start, s) && s.pending != []
    ensures Expanding(g, start, s.(pending := s.pending[1..]), s.pending[0], {})
  {
    var head, rest := s.pending[0], s.pending[1..];
    assert forall i :: 0 <= i < |rest| ==> rest[i] == s.pending[i + 1];
    forall a, d, b | a in s.distance && a !in rest && Edge(g, a, d, b) && a != head
      ensures b in s.distance && s.distance[b] <= s.distance[a] + 1
    {
      assert a !in s.pending;
    }
  }

  ghost function Extended(s: Search, head: string, d: Direction, b: string): Search
    requires head in s.distance
  {
    Search(s.pending + [b], s.previous[b := Previous(head, d)], s.distance[b := s.distance[head] + 1])
  }

  lemma {:induction false} Discover(g: Links, start: string, s: Search, head: string, finished: set<Direction>,
                                    d: Direction, b: string)
    requires Valid(g) && Expanding(g, start, s, head, finished)
    requires Edge(g, head, d, b) && b !in s.previous
    ensures Expanding(g, start, Extended(s, head, d, b), head, finished + {d})
  {
    var next := Extended(s, head, d, b);
    DiscoverTraced(g, start, s, head, d, b);
    DiscoverLayered(s, head, b, next);
    DiscoverExpanded(g, s, head, finished, d, b);
  }

  lemma {:induction false} DiscoverExpanded(g: Links, s: Search, head: string, finished: set<Direction>,
                                            d: Direction, b: string)
    requires Valid(g) && ExpandedBut(g, s, head, finished) && head in s.distance
    requires Edge(g, head, d, b) && b !in s.distance
    ensures ExpandedBut(g, Extended(s, head, d, b), head, finished + {d})
  {
    var next := Extended(s, head, d, b);
    assert next.pending[|s.pending|] == b;
    forall a, d', b' |
      a in next.distance && a !in next.pending && Edge(g, a, d', b') && (a != head || d' in finished + {d})
      ensures b' in next.distance && next.distance[b'] <= next.distance[a] + 1
    {
      NotNew(s, head, d, b, a);
      if a == head && d' == d {
        assert b' == b;
      } else {
        assert b' in s.distance && s.distance[b'] <= s.distance[a] + 1;
      }
    }
  }

  lemma {:induction false} NotNew(s: Search, head: string, d: Direction, b: string, a: string)
    requires head in s.distance
    requires a in Extended(s, head, d, b).distance && a !in Extended(s, head, d, b).pending
    ensures a != b && a in s.distance && a !in s.pending
    ensures Extended(s, head, d, b).distance[a] == s.distance[a]
  {
    var next := Extended(s, head, d, b);
    assert next.pending[|s.pending|] == b;
  }

  lemma {:induction false} DiscoverTraced(g: Links, start: string, s: Search, head: string, d: Direction, b: string)
    requires Valid(g) && Traced(g, start, s) && head in s.distance
    requires Edge(g, head, d, b) && b !in s.previous
    ensures Traced(g, start, Extended(s, head, d, b))
  {
    var next := Extended(s, head, d, b);
    forall a | a in next.previous && a != start
      ensures
        var p := next.previous[a];
        p.address in next.previous && next.distance[a] == next.distance[p.address] + 1 &&
        Edge(g, p.address, p.direction, a)
    {
      if a != b { assert s.previous[a].address != b; }
    }
  }

  /** A link that is absent, not allowed or already discovered changes nothing. */
  lemma {:induction false} NothingNew(g: Links, start: string, s: Search, head: string, finished: set<Direction>,
                                      d: Direction)
    requires Valid(g) && Expanding(g, start, s, head, finished) && head in g.byAddress
    requires var b := g.cells[g.byAddress[head]].Neighbour(d); b == "" || b !in g.allowed || b in s.previous
    ensures Expanding(g, start, s, head, finished + {d})
  {
    forall a, d', b | a in s.distance && a !in s.pending && Edge(g, a, d', b) && (a != head || d' in finished + {d})
      ensures b in s.distance && s.distance[b] <= s.distance[a] + 1
    {
      if a == head && d' !in finished {
        assert b in s.previous;
        assert b in s.pending || s.distance[b] <= s.distance[head];
      }
    }
  }

  lemma {:induction false} DiscoverLayered(s: Search, head: string, b: string, next: Search)
    requires HeadLayered(s, head) && b !in s.distance
    requires next.pending == s.pending + [b] && next.distance == s.distance[b := s.distance[head] + 1]
    ensures HeadLayered(next, head)
  {
    var n := |s.pending|;
    assert next.pending[n] == b && next.distance[head] == s.distance[head];
    forall i | 0 <= i < n + 1
      ensures next.pending[i] in next.distance
      ensures s.distance[head] <= next.distance[next.pending[i]] <= s.distance[head] + 1
    {
      Queued(s, head, b, next, i);
    }
    forall i, j | 0 <= i <= j < n + 1
      ensures next.distance[next.pending[i]] <= next.distance[next.pending[j]] <= next.distance[next.pending[i]] + 1
    {
      Queued(s, head, b, next, i);
      Queued(s, head, b, next, j);
    }
    forall a | a in next.distance && a !in next.pending ensures next.distance[a] <= next.distance[head] {
      assert a != b;
    }
  }

  /** What stands in the queue after `b` was put at its end. */
  lemma {:induction false} Queued(s: Search, head: string, b: string, next: Search, i: nat)
    requires HeadLayered(s, head) && b !in s.distance && i <= |s.pending|
    requires next.pending == s.pending + [b] && next.distance == s.distance[b := s.distance[head] + 1]
    ensures next.pending[i] in next.distance
    ensures s.distance[head] <= next.distance[next.pending[i]] <= s.distance[head] + 1
    ensures i == |s.pending| ==> next.distance[next.pending[i]] == s.distance[head] + 1
    ensures i < |s.pending| ==> next.pending[i] == s.pending[i] && s.pending[i] in s.distance &&
                                next.distance[next.pending[i]] == s.distance[s.pending[i]]
  {
  }

  /** The head's links are all done: the search invariant holds again. */
  lemma {:induction false} FinishHead(g: Links, start: string, s: Search, head: string, finished: set<Direction>)
    requires Valid(g) && Expanding(g, start, s, head, finished)
    requires ToRight in finished && Downward in finished
    ensures Searching(g, start, s)
  {
    forall a, d, b | a in s.distance && a !in s.pending && Edge(g, a, d, b)
      ensures b in s.distance && s.distance[b] <= s.distance[a] + 1
    {
      assert d in finished;
    }
  }

  /** A newly discovered address is at its true distance: no chain to it is shorter. */
  ghost predicate Shortest(g: Links, start: string, a: string, length: nat)
    requires Valid(g)
  {
    forall path :: IsChain(g, start, path) && Last(start, path) == a ==> length <= |path|
  }

  lemma {:induction false} DiscoveredShortest(g: Links, start: string, s: Search, b: string)
    requires Valid(g) && Searching(g, start, s) && s.pending != [] && b !in s.distance
    ensures Shortest(g, start, b, s.distance[s.pending[0]] + 1)
  {
    forall path | IsChain(g, start, path) && Last(start, path) == b
      ensures s.distance[s.pending[0]] + 1 <= |path|
    {
      ChainReached(g, start, s, path);
    }
  }

  lemma {:induction false} ExhaustedUnreachable(g: Links, start: string, s: Search, b: string)
    requires Valid(g) && Searching(g, start, s) && s.pending == [] && b !in s.distance
    ensures forall path :: IsChain(g, start, path) ==> Last(start, path) != b
  {
    forall path | IsChain(g, start, path) ensures Last(start, path) != b {
      ChainReached(g, start, s, path);
    }
  }

  // ----- the search -----

  /** `after` extends `before`, and what is new in it was found one level below `head`. */
  ghost predicate Grown(g: Links, before: map<string, nat>, after: map<string, nat>, head: string) {
    && head in before
    && before.Keys <= after.Keys <= before.Keys + g.allowed
    && forall a :: a in after ==> after[a] == if a in before then before[a] else before[head] + 1
  }

  lemma {:induction false} GrownTwice(g: Links, first: map<string, nat>, second: map<string, nat>, third: map<string,
                                      nat>, head: string)
    requires Grown(g, first, second, head) && Grown(g, second, third, head)
    ensures Grown(g, first, third, head)
    ensures first.Keys < second.Keys || second.Keys < third.Keys ==> first.Keys < third.Keys
  {
  }

  /** Looks along one link out of the head: a new allowed cell is recorded and queued. */
  method LookAlong(g: Links, ghost start: string, head: string, ghost finished: set<Direction>, d: Direction,
                   pending: seq<string>, previous: map<string, Previous>, ghost distance: map<string, nat>)
    returns (pending': seq<string>, previous': map<string, Previous>, ghost distance': map<string, nat>)
    requires Valid(g) && Expanding(g, start, Search(pending, previous, distance), head, finished)
    requires head in g.byAddress
    ensures Expanding(g, start, Search(pending', previous', distance'), head, finished + {d})
    ensures Grown(g, distance, distance', head)
    ensures distance.Keys < distance'.Keys || pending' == pending
  {
    ghost var s := Search(pending, previous, distance);
    pending', previous', distance' := pending, previous, distance;
    var b := g.cells[g.byAddress[head]].Neighbour(d);
    if b == "" || b !in g.allowed || b in previous {
      NothingNew(g, start, s, head, finished, d);
      return;
    }
    Discover(g, start, s, head, finished, d, b);
    pending' := pending + [b];
    previous' := previous[b := Previous(head, d)];
    distance' := Extended(s, head, d, b).distance;
    assert b in distance' && b !in distance;
  }

  lemma {:induction false} TraceStep(g: Links, start: string, s: Search, current: string, path: seq<Step>)
    requires Valid(g) && Traced(g, start, s) && current in s.previous && current != start
    ensures
      var p := s.previous[current];
      && p.address in s.previous && s.distance[p.address] < s.distance[current]
      && Traceback(g, start, s, p.address) + ([Step(p.direction, current)] + path) ==
         Traceback(g, start, s, current) + path
  {
    var p := s.previous[current];
    assert Traceback(g, start, s, current) == Traceback(g, start, s, p.address) + [Step(p.direction, current)];
  }

  /** Reads the discovered path back from the end, one recorded step at a time. */
  method ReadBack(g: Links, start: string, end: string, previous: map<string, Previous>, ghost s: Search)
    returns (path: seq<Step>)
    requires Valid(g) && Traced(g, start, s) && s.previous == previous && end in previous
    ensures path == Traceback(g, start, s, end)
  {
    var current := end;
    path := [];
    ghost var whole := Traceback(g, start, s, end);
    while current != start
      invariant current in previous
      invariant whole == Traceback(g, start, s, current) + path
      decreases s.distance[current]
    {
      TraceStep(g, start, s, current, path);
      path := [Step(previous[current].direction, current)] + path;
      current := previous[current].address;
    }
  }

  /** Expands the head of the queue along its right link and then its down link. */
  method ExpandHead(g: Links, ghost start: string,
                    pending: seq<string>, previous: map<string, Previous>, ghost distance: map<string, nat>)
    returns (pending': seq<string>, previous': map<string, Previous>, ghost distance': map<string, nat>)
    requires Valid(g) && Searching(g, start, Search(pending, previous, distance)) && pending != []
    requires pending[0] in g.byAddress
    ensures Searching(g, start, Search(pending', previous', distance'))
    ensures Grown(g, distance, distance', pending[0])
    ensures distance.Keys < distance'.Keys || |pending'| < |pending|
  {
    var head := pending[0];
    TakeHead(g, start, Search(pending, previous, distance));
    pending', previous', distance' := LookAlong(g, start, head, {}, ToRight, pending[1..], previous, distance);
    ghost var distance1 := distance';
    pending', previous', distance' :=
      LookAlong(g, start, head, {} + {ToRight}, Downward, pending', previous', distance');
    GrownTwice(g, distance, distance1, distance', head);
    FinishHead(g, start, Search(pending', previous', distance'), head, {} + {ToRight} + {Downward});
  }

  /** Breadth-first search from `start` to `end`. It returns a shortest chain whenever there is a chain at all. */
  method FindPath(g: Links, start: string, end: string) returns (path: Option<seq<Step>>)
    requires Valid(g) && start in g.byAddress && g.allowed <= g.byAddress.Keys
    ensures path.Some? ==>
      IsChain(g, start, path.value) && Last(start, path.value) == end && Shortest(g, start, end, |path.value|)
    ensures path.None? ==> forall p :: IsChain(g, start, p) ==> Last(start, p) != end
  {
    var pending, previous := [start], map[start := Previous("", ToRight)];
    ghost var distance := map[start := 0];
    while pending != [] && end !in previous
      invariant Searching(g, start, Search(pending, previous, distance))
      invariant distance.Keys <= g.allowed + {start}
      invariant end in distance ==> Shortest(g, start, end, distance[end])
      decreases (g.allowed + {start}) - distance.Keys, |pending|
    {
      ghost var s := Search(pending, previous, distance);
      DiscoveredShortest(g, start, s, end);
      pending, previous, distance := ExpandHead(g, start, pending, previous, distance);
    }
    ghost var s := Search(pending, previous, distance);
    if end !in previous {
      ExhaustedUnreachable(g, start, s, end);
      return None;
    }
    var found := ReadBack(g, start, end, previous, s);
    path := Some(found);
  }
}
