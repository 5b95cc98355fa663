/** Counting finite sets and the members of a sequence. */
module Counting {

  lemma {:induction false} SubsetCount<T>(a: set<T>, b: set<T>)
    requires a <= b
    ensures |a| <= |b|
    ensures |a| == |b| ==> a == b
  {
    assert b == a + (b - a);
  }

  /** A sequence has as many members as positions exactly when it repeats none. */
  lemma {:induction false} DistinctIffSize<T>(xs: seq<T>)
    ensures |set x | x in xs| <= |xs|
    ensures |set x | x in xs| == |xs| <==> forall i, j :: 0 <= i < j < |xs| ==> xs[i] != xs[j]
  {
    if xs != [] {
      var before, last := xs[..|xs| - 1], xs[|xs| - 1];
      DistinctIffSize(before);
      assert xs == before + [last];
      assert (set x | x in xs) == (set x | x in before) + {last};
      if last in before {
        var i :| 0 <= i < |before| && before[i] == last;
        assert (set x | x in before) + {last} == (set x | x in before);
        assert xs[i] == xs[|xs| - 1];
      }
    }
  }
}
