/** Replacing one match inside a cell: what the shadow copy computes, what the live engine does with the
    positions it is given, and exactly when the two agree. */
module PatchReadback {
  import opened TextPositions
  import opened TextMatches

  datatype Patched = Text(text: string) | NoMatch(choice: Choice) | NothingSelected | StaleSelection

  function Replace(text: string, from: nat, to: nat, replacement: string): string
    requires from <= to <= |text|
  {
    text[..from] + replacement + text[to..]
  }

  /** The shadow copy replaces the matched characters. */
  function ShadowPatch(text: string, search: string, matchCase: bool, occurrence: int, replacement: string): Patched
    requires search != []
  {
    var choice := Choose(Greedy(text, search, matchCase, 0), occurrence);
    if choice.Found? && choice.offset + |search| <= |text| then
      Text(Replace(text, choice.offset, choice.offset + |search|, replacement))
    else NoMatch(choice)
  }

  /** The readback check before a replacement: equal up to line-break form, and up to case if asked. */
  predicate ExactReadback(readback: string, expected: string, matchCase: bool) {
    SameText(Normalized(readback), Normalized(expected), matchCase)
  }

  /** The live engine selects from the position of the match start to the position of its end. A position stands for
      its canonical offset, so a match that ends or starts inside a CR LF pair selects something else. The selection is
      read back before it is replaced; a selection of nothing is refused. */
  function LivePatch(text: string, search: string, matchCase: bool, occurrence: int, replacement: string): Patched
    requires search != []
  {
    var choice := Choose(Greedy(text, search, matchCase, 0), occurrence);
    if choice.Found? && choice.offset + |search| <= |text| then
      LiveReplace(text, search, matchCase, choice.offset, replacement)
    else NoMatch(choice)
  }

  function LiveReplace(text: string, search: string, matchCase: bool, offset: nat, replacement: string): Patched
    requires offset + |search| <= |text|
  {
    var from, to := Canonical(text, offset), Canonical(text, offset + |search|);
    if from >= to then NothingSelected
    else if !ExactReadback(text[from..to], search, matchCase) then StaleSelection
    else Text(Replace(text, from, to, replacement))
  }

  /** The match cuts no CR LF pair in two. */
  predicate Whole(text: string, offset: nat, length: nat) {
    !InsidePair(text, offset) && !InsidePair(text, offset + length)
  }

  // ----- folding commutes with normalizing -----

  lemma {:induction false} SameNormalized(a: string, b: string, matchCase: bool)
    requires SameText(a, b, matchCase)
    ensures SameText(Normalized(a), Normalized(b), matchCase)
    decreases |a|
  {
    if a != [] {
      assert SameCharacter(a[0], b[0], matchCase);
      assert |a| > 1 ==> SameCharacter(a[1], b[1], matchCase);
      var n := if a[0] == '\r' && |a| > 1 && a[1] == '\n' then 2 else 1;
      assert SameText(a[n..], b[n..], matchCase);
      SameNormalized(a[n..], b[n..], matchCase);
    }
  }

  lemma {:induction false} SameLength(a: string, b: string, matchCase: bool)
    requires SameText(a, b, matchCase)
    ensures |Normalized(a)| == |Normalized(b)|
  {
    SameNormalized(a, b, matchCase);
  }

  /** A trailing LF behind a CR adds nothing to the normal form. */
  lemma {:induction false} FeedAddsNothing(s: string)
    requires s != [] && s[|s| - 1] == '\r'
    ensures Normalized(s + "\n") == Normalized(s)
    decreases |s|
  {
    var more := s + "\n";
    if |s| == 1 {
      assert more[0] == '\r' && more[1] == '\n' && more[2..] == [] && s[1..] == [];
    } else {
      var n := if s[0] == '\r' && s[1] == '\n' then 2 else 1;
      assert more[n..] == s[n..] + "\n";
      if n < |s| { FeedAddsNothing(s[n..]); }
    }
  }

  // ----- one patch -----

  lemma {:induction false} ChosenMatches(text: string, search: string, matchCase: bool, occurrence: int)
    requires search != []
    ensures
      var choice := Choose(Greedy(text, search, matchCase, 0), occurrence);
      choice.Found? ==> MatchAt(text, search, choice.offset, matchCase)
  {
    GreedyApart(text, search, matchCase, 0);
  }

  /** A whole match is selected exactly, read back and replaced as in the shadow copy. */
  lemma {:induction false} WholeReplaced(text: string, search: string, matchCase: bool, offset: nat,
                                         replacement: string)
    requires search != [] && MatchAt(text, search, offset, matchCase) && Whole(text, offset, |search|)
    ensures LiveReplace(text, search, matchCase, offset, replacement) ==
            Text(Replace(text, offset, offset + |search|, replacement))
  {
    SameNormalized(text[offset..offset + |search|], search, matchCase);
  }

  /** Behind the second half of a pair, one break fewer is selected than the search has. */
  lemma {:induction false} ShortWindow(text: string, offset: nat, n: nat)
    requires 0 < n && offset + n <= |text| && InsidePair(text, offset)
    ensures var to := Canonical(text, offset + n);
      offset + 1 <= to <= |text| &&
      |Normalized(text[offset + 1..to])| + 1 == |Normalized(text[offset..offset + n])|
  {
    var window, rest := text[offset..offset + n], text[offset + 1..offset + n];
    assert window[0] == '\n' && window[1..] == rest;
    assert Normalized(window) == ['\n'] + Normalized(rest);
    if InsidePair(text, offset + n) {
      assert text[offset + 1..offset + n + 1] == rest + "\n";
      LastOfRest(text, offset, n);
      FeedAddsNothing(rest);
    }
  }

  lemma {:induction false} LastOfRest(text: string, offset: nat, n: nat)
    requires 0 < n && offset + n <= |text| && InsidePair(text, offset) && InsidePair(text, offset + n)
    ensures var rest := text[offset + 1..offset + n]; rest != [] && rest[|rest| - 1] == '\r'
  {
    assert n > 1;
    assert text[offset + 1..offset + n][n - 2] == text[offset + n - 1];
  }

  /** A match that starts inside a pair is refused: what is selected is one break short. */
  lemma {:induction false} SplitStartRefused(text: string, search: string, matchCase: bool, offset: nat,
                                             replacement: string)
    requires search != [] && MatchAt(text, search, offset, matchCase) && InsidePair(text, offset)
    ensures !LiveReplace(text, search, matchCase, offset, replacement).Text?
  {
    ShortWindow(text, offset, |search|);
    SameLength(text[offset..offset + |search|], search, matchCase);
  }

  /** A match that only ends inside a pair is read back like the match itself. */
  lemma {:induction false} LongWindow(text: string, search: string, matchCase: bool, offset: nat)
    requires search != [] && MatchAt(text, search, offset, matchCase) && InsidePair(text, offset + |search|)
    ensures ExactReadback(text[offset..offset + |search| + 1], search, matchCase)
  {
    var n := |search|;
    var window := text[offset..offset + n];
    assert text[offset..offset + n + 1] == window + "\n";
    assert window[n - 1] == text[offset + n - 1];
    FeedAddsNothing(window);
    SameNormalized(window, search, matchCase);
  }

  lemma {:induction false} ReplaceShorter(text: string, from: nat, to: nat, replacement: string)
    requires from <= to < |text|
    ensures |Replace(text, from, to + 1, replacement)| < |Replace(text, from, to, replacement)|
  {
  }

  /** A match that only ends inside a pair is replaced together with the other half of the pair. */
  lemma {:induction false} SplitEndDiverges(text: string, search: string, matchCase: bool, offset: nat,
                                            replacement: string)
    requires search != [] && MatchAt(text, search, offset, matchCase)
    requires !InsidePair(text, offset) && InsidePair(text, offset + |search|)
    ensures LiveReplace(text, search, matchCase, offset, replacement) ==
            Text(Replace(text, offset, offset + |search| + 1, replacement))
    ensures Replace(text, offset, offset + |search| + 1, replacement) !=
            Replace(text, offset, offset + |search|, replacement)
  {
    LongWindow(text, search, matchCase, offset);
    ReplaceShorter(text, offset, offset + |search|, replacement);
  }

  /** The chosen match, if there is one, cuts no pair. */
  predicate ChosenWhole(text: string, search: string, matchCase: bool, occurrence: int)
    requires search != []
  {
    var choice := Choose(Greedy(text, search, matchCase, 0), occurrence);
    choice.Found? ==> Whole(text, choice.offset, |search|)
  }

  /** The live replacement does what the shadow copy predicted if and only if the match cuts no CR LF pair. */
  lemma {:induction false} PatchAgrees(
    text: string, search: string, matchCase: bool, occurrence: int, replacement: string)
    requires search != []
    ensures LivePatch(text, search, matchCase, occurrence, replacement) ==
            ShadowPatch(text, search, matchCase, occurrence, replacement) <==>
            ChosenWhole(text, search, matchCase, occurrence)
  {
    var choice := Choose(Greedy(text, search, matchCase, 0), occurrence);
    ChosenMatches(text, search, matchCase, occurrence);
    if choice.Found? {
      var offset := choice.offset;
      if InsidePair(text, offset) {
        SplitStartRefused(text, search, matchCase, offset, replacement);
      } else if InsidePair(text, offset + |search|) {
        SplitEndDiverges(text, search, matchCase, offset, replacement);
      } else {
        WholeReplaced(text, search, matchCase, offset, replacement);
      }
    }
  }

  // ----- the condition a caller can check on the search text alone -----

  /** A search text that can never cut a pair: it does not start with LF and does not end with CR. */
  predicate SafeSearch(search: string)
    requires search != []
  {
    search[0] != '\n' && search[|search| - 1] != '\r'
  }

  ghost predicate AlwaysAgrees(search: string, matchCase: bool, replacement: string)
    requires search != []
  {
    forall text, occurrence ::
      LivePatch(text, search, matchCase, occurrence, replacement) ==
      ShadowPatch(text, search, matchCase, occurrence, replacement)
  }

  lemma {:induction false} SafeIsWhole(text: string, search: string, matchCase: bool, occurrence: int)
    requires search != [] && SafeSearch(search)
    ensures ChosenWhole(text, search, matchCase, occurrence)
  {
    var choice := Choose(Greedy(text, search, matchCase, 0), occurrence);
    ChosenMatches(text, search, matchCase, occurrence);
    if choice.Found? {
      var n := |search|;
      var window := text[choice.offset..choice.offset + n];
      assert SameCharacter(window[0], search[0], matchCase) && window[0] == text[choice.offset];
      assert SameCharacter(window[n - 1], search[n - 1], matchCase) && window[n - 1] == text[choice.offset + n - 1];
    }
  }

  /**
   * A cell text on which an unsafe search goes wrong, and where: CR in front of a leading LF, or LF behind a trailing
   * CR.
   */
  function Trap(search: string): (string, nat)
    requires search != [] && !SafeSearch(search)
  {
    if search[0] == '\n' then ("\r" + search, 1) else (search + "\n", 0)
  }

  lemma {:induction false} TrapSprings(search: string, matchCase: bool)
    requires search != [] && !SafeSearch(search)
    ensures !ChosenWhole(Trap(search).0, search, matchCase, 1)
  {
    var (text, offset) := Trap(search);
    var n := |search|;
    assert text[offset..offset + n] == search;
    if offset == 1 {
      assert text[0..0 + n][0] == '\r' && search[0] == '\n';
      assert !SameCharacter(text[0..n][0], search[0], matchCase);
      assert Greedy(text, search, matchCase, 0) == Greedy(text, search, matchCase, 1);
    }
    assert MatchAt(text, search, offset, matchCase);
    assert Greedy(text, search, matchCase, offset) == [offset] + Greedy(text, search, matchCase, offset + n);
    assert offset == 0 ==> InsidePair(text, n);
  }

  /** Preflight and execution agree on every cell text exactly for the safe searches. */
  lemma {:induction false} SafeSearchDecides(search: string, matchCase: bool, replacement: string)
    requires search != []
    ensures AlwaysAgrees(search, matchCase, replacement) <==> SafeSearch(search)
  {
    if SafeSearch(search) {
      forall text, occurrence
        ensures LivePatch(text, search, matchCase, occurrence, replacement) ==
                ShadowPatch(text, search, matchCase, occurrence, replacement)
      {
        SafeIsWhole(text, search, matchCase, occurrence);
        PatchAgrees(text, search, matchCase, occurrence, replacement);
      }
    } else {
      TrapSprings(search, matchCase);
      PatchAgrees(Trap(search).0, search, matchCase, 1, replacement);
    }
  }
}
