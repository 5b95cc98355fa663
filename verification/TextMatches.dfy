/** Finding a search text in a cell: the scan in the live cell stops early, the scan in the shadow
    copy collects everything, and both have to choose the same occurrence. */
module TextMatches {
  import opened TextPositions

  /** `towlower` in the C runtime's default "C" locale: ASCII letters only. */
  function ToLower(c: char): char {
    if 'A' <= c <= 'Z' then 'a' + (c - 'A') else c
  }

  predicate SameCharacter(a: char, b: char, matchCase: bool) {
    if matchCase then a == b else ToLower(a) == ToLower(b)
  }

  predicate SameText(a: string, b: string, matchCase: bool) {
    |a| == |b| && forall i :: 0 <= i < |a| ==> SameCharacter(a[i], b[i], matchCase)
  }

  /** The search text stands at `offset`. */
  predicate MatchAt(actual: string, expected: string, offset: nat, matchCase: bool) {
    offset + |expected| <= |actual| && SameText(actual[offset..offset + |expected|], expected, matchCase)
  }

  /** The comparison loop. Its bound is the length of the whole text, not of the search text. */
  method TextMatchesAt(actual: string, expected: string, offset: nat, matchCase: bool) returns (matches: bool)
    ensures matches <==> MatchAt(actual, expected, offset, matchCase)
  {
    if offset > |actual| || |expected| > |actual| - offset {
      return false;
    }
    ghost var window := actual[offset..offset + |expected|];
    var index := 0;
    while index < |actual|
      invariant 0 <= index <= |actual| && index <= |expected|
      invariant forall i :: 0 <= i < index ==> SameCharacter(window[i], expected[i], matchCase)
    {
      if index == |expected| {
        return true;
      }
      var current := actual[offset + index];
      assert current == window[index];
      if !SameCharacter(current, expected[index], matchCase) {
        return false;
      }
      index := index + 1;
    }
    matches := |expected| == |actual| - offset;
  }

  // ----- the chosen occurrences: leftmost, without overlap -----

  /** Offsets of the matches from `from` on, taking each leftmost match and continuing behind it. */
  function Greedy(text: string, search: string, matchCase: bool, from: nat): seq<nat>
    requires search != []
    decreases |text| - from
  {
    if from + |search| > |text| then []
    else if MatchAt(text, search, from, matchCase) then [from] + Greedy(text, search, matchCase, from + |search|)
    else Greedy(text, search, matchCase, from + 1)
  }

  lemma {:induction false} ScanStep(text: string, search: string, matchCase: bool, offset: nat, matched: bool)
    requires search != [] && offset + |search| <= |text|
    requires matched <==> MatchAt(text, search, offset, matchCase)
    ensures Greedy(text, search, matchCase, offset) ==
            if matched then [offset] + Greedy(text, search, matchCase, offset + |search|)
            else Greedy(text, search, matchCase, offset + 1)
  {
  }

  /** One turn of either scan: compare at the offset, and move behind the match or one character on. */
  method ScanOne(text: string, search: string, matchCase: bool, offset: nat, done: seq<nat>)
    returns (found: bool, next: nat, done': seq<nat>)
    requires search != [] && offset + |search| <= |text|
    ensures offset < next <= |text|
    ensures done' == if found then done + [offset] else done
    ensures done' + Greedy(text, search, matchCase, next) == done + Greedy(text, search, matchCase, offset)
  {
    found := TextMatchesAt(text, search, offset, matchCase);
    ScanStep(text, search, matchCase, offset, found);
    if found {
      next, done' := offset + |search|, done + [offset];
      ghost var rest := Greedy(text, search, matchCase, next);
      assert done + ([offset] + rest) == (done + [offset]) + rest;
    } else {
      next, done' := offset + 1, done;
    }
  }

  datatype Choice =
    | Found(offset: nat)
    | NotFound
    | OccurrenceNotFound
    | Ambiguous

  /** Which match a requested occurrence means; zero asks for the only one. */
  function Choose(matches: seq<nat>, occurrence: int): Choice {
    if occurrence > 0 then
      if occurrence <= |matches| then Found(matches[occurrence - 1]) else OccurrenceNotFound
    else if |matches| == 0 then NotFound
    else if |matches| == 1 then Found(matches[0])
    else Ambiguous
  }

  const MAXIMUM_CANDIDATES := 24
  const MAXIMUM_OCCURRENCE := 20_000

  /** The scan in the live cell: it returns as soon as the requested occurrence is reached,
      and without a requested occurrence it stops at 24 candidates. */
  method ScanCell(text: string, search: string, matchCase: bool, occurrence: int)
    returns (choice: Choice, candidates: seq<nat>)
    requires search != []
    ensures choice == Choose(Greedy(text, search, matchCase, 0), occurrence)
    ensures RightChoice(text, search, matchCase, occurrence, choice)
    ensures choice == Ambiguous ==> candidates <= Greedy(text, search, matchCase, 0) && |candidates| >= 2
  {
    ChooseIsRight(text, search, matchCase, occurrence);
    candidates := [];
    var offset := 0;
    while offset + |search| <= |text|
      invariant Greedy(text, search, matchCase, 0) == candidates + Greedy(text, search, matchCase, offset)
      invariant occurrence > 0 ==> |candidates| < occurrence
      invariant occurrence == 0 ==> |candidates| < MAXIMUM_CANDIDATES
      decreases |text| - offset
    {
      var found, next;
      found, next, candidates := ScanOne(text, search, matchCase, offset, candidates);
      if found && occurrence > 0 && |candidates| == occurrence {
        return Found(offset), candidates;
      }
      if found && occurrence == 0 && |candidates| == MAXIMUM_CANDIDATES {
        break;
      }
      offset := next;
    }
    choice := PickCell(candidates, occurrence);
  }

  /** The decisions of the live scan once its loop has ended without returning. */
  function PickCell(candidates: seq<nat>, occurrence: int): Choice {
    if |candidates| == 0 then
      if occurrence > 0 then OccurrenceNotFound else NotFound
    else if occurrence > 0 then OccurrenceNotFound
    else if |candidates| > 1 then Ambiguous
    else Found(candidates[0])
  }

  datatype ShadowChoice = OccurrenceOutOfRange | ExpectedEmpty | Chosen(choice: Choice)

  /** The scan in the shadow copy: it checks its arguments and collects every match first. */
  method ScanShadow(text: string, search: string, matchCase: bool, occurrence: int) returns (choice: ShadowChoice)
    ensures choice == OccurrenceOutOfRange <==> !(0 <= occurrence <= MAXIMUM_OCCURRENCE)
    ensures choice == ExpectedEmpty <==> 0 <= occurrence <= MAXIMUM_OCCURRENCE && search == []
    ensures choice.Chosen? ==> choice.choice == Choose(Greedy(text, search, matchCase, 0), occurrence)
    ensures choice.Chosen? ==> RightChoice(text, search, matchCase, occurrence, choice.choice)
  {
    if occurrence < 0 || occurrence > MAXIMUM_OCCURRENCE {
      return OccurrenceOutOfRange;
    }
    if search == [] {
      return ExpectedEmpty;
    }
    ChooseIsRight(text, search, matchCase, occurrence);
    var matches: seq<nat>, offset := [], 0;
    while offset + |search| <= |text|
      invariant Greedy(text, search, matchCase, 0) == matches + Greedy(text, search, matchCase, offset)
      decreases |text| - offset
    {
      var found;
      found, offset, matches := ScanOne(text, search, matchCase, offset, matches);
    }
    assert matches + [] == matches;
    choice := Chosen(PickShadow(matches, occurrence));
  }

  /** The decisions of the shadow scan, in its order. */
  function PickShadow(matches: seq<nat>, occurrence: int): (choice: Choice)
    ensures choice == Choose(matches, occurrence)
  {
    if |matches| == 0 then
      if occurrence > 0 then OccurrenceNotFound else NotFound
    else if occurrence > 0 then
      if occurrence > |matches| then OccurrenceNotFound else Found(matches[occurrence - 1])
    else if |matches| != 1 then Ambiguous
    else Found(matches[0])
  }

  // ----- what greedy means -----

  /** Increasing offsets of matches at or behind `from` that do not overlap. */
  ghost predicate Apart(text: string, search: string, matchCase: bool, from: nat, offsets: seq<nat>) {
    && (forall i :: 0 <= i < |offsets| ==> from <= offsets[i] && MatchAt(text, search, offsets[i], matchCase))
    && (forall i, j :: 0 <= i < j < |offsets| ==> offsets[i] + |search| <= offsets[j])
  }

  lemma {:induction false} ApartCons(text: string, search: string, matchCase: bool, from: nat, rest: seq<nat>)
    requires MatchAt(text, search, from, matchCase) && Apart(text, search, matchCase, from + |search|, rest)
    ensures Apart(text, search, matchCase, from, [from] + rest)
  {
    var all := [from] + rest;
    assert forall i :: 0 < i < |all| ==> all[i] == rest[i - 1];
  }

  lemma {:induction false} GreedyApart(text: string, search: string, matchCase: bool, from: nat)
    requires search != []
    ensures Apart(text, search, matchCase, from, Greedy(text, search, matchCase, from))
    decreases |text| - from
  {
    if from + |search| <= |text| {
      if MatchAt(text, search, from, matchCase) {
        GreedyApart(text, search, matchCase, from + |search|);
        ApartCons(text, search, matchCase, from, Greedy(text, search, matchCase, from + |search|));
      } else {
        GreedyApart(text, search, matchCase, from + 1);
      }
    }
  }

  ghost predicate InsideOne(offsets: seq<nat>, length: nat, offset: nat) {
    exists k :: 0 <= k < |offsets| && offsets[k] <= offset < offsets[k] + length
  }

  /** Every match starts inside a chosen one: nothing could be added, and each choice is leftmost. */
  lemma {:induction false} GreedyLeavesNothing(text: string, search: string, matchCase: bool, from: nat, offset: nat)
    requires search != [] && from <= offset && MatchAt(text, search, offset, matchCase)
    ensures InsideOne(Greedy(text, search, matchCase, from), |search|, offset)
    decreases |text| - from
  {
    var all := Greedy(text, search, matchCase, from);
    if MatchAt(text, search, from, matchCase) {
      var rest := Greedy(text, search, matchCase, from + |search|);
      assert all == [from] + rest && all[0] == from;
      if from + |search| <= offset {
        GreedyLeavesNothing(text, search, matchCase, from + |search|, offset);
        var k :| 0 <= k < |rest| && rest[k] <= offset < rest[k] + |search|;
        assert all[k + 1] == rest[k];
      }
    } else {
      GreedyLeavesNothing(text, search, matchCase, from + 1, offset);
    }
  }

  /** The chosen offsets are at least as many, and each is at most as far. */
  ghost predicate Ahead(chosen: seq<nat>, offsets: seq<nat>) {
    |offsets| <= |chosen| && forall k :: 0 <= k < |offsets| ==> chosen[k] <= offsets[k]
  }

  lemma {:induction false} ApartTail(
    text: string, search: string, matchCase: bool, from: nat, offsets: seq<nat>)
    requires offsets != [] && Apart(text, search, matchCase, from, offsets)
    ensures Apart(text, search, matchCase, from + |search|, offsets[1..])
  {
    var rest := offsets[1..];
    forall i | 0 <= i < |rest| ensures from + |search| <= rest[i] && MatchAt(text, search, rest[i], matchCase) {
      assert rest[i] == offsets[i + 1] && offsets[0] + |search| <= offsets[i + 1];
    }
  }

  lemma {:induction false} AheadCons(from: nat, chosen: seq<nat>, offsets: seq<nat>)
    requires offsets != [] && from <= offsets[0] && Ahead(chosen, offsets[1..])
    ensures Ahead([from] + chosen, offsets)
  {
    forall k | 0 <= k < |offsets| ensures ([from] + chosen)[k] <= offsets[k] {
      if k > 0 { assert offsets[1..][k - 1] == offsets[k]; }
    }
  }

  /** No set of non-overlapping matches is larger, and the k-th chosen match is never later than its k-th match. */
  lemma {:induction false} GreedyStaysAhead(
    text: string, search: string, matchCase: bool, from: nat, offsets: seq<nat>)
    requires search != [] && Apart(text, search, matchCase, from, offsets)
    ensures Ahead(Greedy(text, search, matchCase, from), offsets)
    decreases |text| - from
  {
    if offsets != [] {
      assert from <= offsets[0] && MatchAt(text, search, offsets[0], matchCase);
      if MatchAt(text, search, from, matchCase) {
        ApartTail(text, search, matchCase, from, offsets);
        GreedyStaysAhead(text, search, matchCase, from + |search|, offsets[1..]);
        AheadCons(from, Greedy(text, search, matchCase, from + |search|), offsets);
      } else {
        assert offsets[0] != from;
        GreedyStaysAhead(text, search, matchCase, from + 1, offsets);
      }
    }
  }

  // ----- the right choice, on the matches alone -----

  /** Matches without overlap inside which every match starts: each one is the leftmost behind the one before. */
  ghost predicate Leftmost(text: string, search: string, matchCase: bool, offsets: seq<nat>) {
    && Apart(text, search, matchCase, 0, offsets)
    && forall o: nat {:trigger InsideOne(offsets, |search|, o)} ::
         MatchAt(text, search, o, matchCase) ==> InsideOne(offsets, |search|, o)
  }

  /** No two matches stand beside each other without overlap. */
  ghost predicate AtMostOne(text: string, search: string, matchCase: bool) {
    forall offsets :: Apart(text, search, matchCase, 0, offsets) ==> |offsets| <= 1
  }

  /** Fewer than `n` matches can be had without overlap. */
  ghost predicate Fewer(text: string, search: string, matchCase: bool, n: int) {
    forall offsets :: Apart(text, search, matchCase, 0, offsets) ==> |offsets| < n
  }

  ghost predicate NthLeftmost(text: string, search: string, matchCase: bool, n: int, k: nat) {
    exists offsets :: Leftmost(text, search, matchCase, offsets) && 1 <= n <= |offsets| && offsets[n - 1] == k
  }

  /** What may be answered to a requested occurrence. With none requested a match is found only if it is the only one,
      and with the n-th requested exactly the n-th of the leftmost matches. */
  ghost predicate RightChoice(text: string, search: string, matchCase: bool, occurrence: int, choice: Choice) {
    match choice
    case Found(k) =>
      if occurrence > 0 then NthLeftmost(text, search, matchCase, occurrence, k)
      else AtMostOne(text, search, matchCase) && Leftmost(text, search, matchCase, [k])
    case NotFound => occurrence <= 0 && forall o: nat :: !MatchAt(text, search, o, matchCase)
    case OccurrenceNotFound => occurrence > 0 && Fewer(text, search, matchCase, occurrence)
    case Ambiguous => occurrence <= 0 && !AtMostOne(text, search, matchCase)
  }

  lemma {:induction false} GreedyIsLeftmost(text: string, search: string, matchCase: bool)
    requires search != []
    ensures Leftmost(text, search, matchCase, Greedy(text, search, matchCase, 0))
  {
    GreedyApart(text, search, matchCase, 0);
    forall o: nat | MatchAt(text, search, o, matchCase)
      ensures InsideOne(Greedy(text, search, matchCase, 0), |search|, o)
    {
      GreedyLeavesNothing(text, search, matchCase, 0, o);
    }
  }

  /** The k-th of the leftmost matches is there, and is not behind the k-th of any matches without overlap. */
  lemma {:induction false} LeftmostReaches(offsets: seq<nat>, others: seq<nat>, length: nat, k: nat)
    requires k < |others| && forall i :: 0 <= i < |others| ==> InsideOne(offsets, length, others[i])
    requires forall i, j :: 0 <= i < j < |offsets| ==> offsets[i] + length <= offsets[j]
    requires forall i, j :: 0 <= i < j < |others| ==> others[i] + length <= others[j]
    ensures k < |offsets| && offsets[k] <= others[k]
  {
    assert InsideOne(offsets, length, others[k]);
    var m :| 0 <= m < |offsets| && offsets[m] <= others[k] < offsets[m] + length;
    if k > 0 {
      LeftmostReaches(offsets, others, length, k - 1);
      assert others[k - 1] + length <= others[k];
    }
    assert m > k ==> offsets[k] + length <= offsets[m];
  }

  lemma {:induction false} LeftmostAhead(
    text: string, search: string, matchCase: bool, offsets: seq<nat>, others: seq<nat>)
    requires Leftmost(text, search, matchCase, offsets) && Apart(text, search, matchCase, 0, others)
    ensures Ahead(offsets, others)
  {
    forall i | 0 <= i < |others| ensures InsideOne(offsets, |search|, others[i]) {
      assert MatchAt(text, search, others[i], matchCase);
    }
    ReachesAll(offsets, others, |search|);
  }

  lemma {:induction false} ReachesAll(offsets: seq<nat>, others: seq<nat>, length: nat)
    requires forall i :: 0 <= i < |others| ==> InsideOne(offsets, length, others[i])
    requires forall i, j :: 0 <= i < j < |offsets| ==> offsets[i] + length <= offsets[j]
    requires forall i, j :: 0 <= i < j < |others| ==> others[i] + length <= others[j]
    ensures Ahead(offsets, others)
  {
    if others != [] { LeftmostReaches(offsets, others, length, |others| - 1); }
    forall k | 0 <= k < |others| ensures offsets[k] <= others[k] {
      LeftmostReaches(offsets, others, length, k);
    }
  }

  lemma {:induction false} AheadOfEachOther(a: seq<nat>, b: seq<nat>)
    requires Ahead(a, b) && Ahead(b, a)
    ensures a == b
  {
    forall k | 0 <= k < |a| ensures a[k] == b[k] {
      assert a[k] <= b[k] <= a[k];
    }
  }

  /** There is one sequence of leftmost matches. */
  lemma {:induction false} LeftmostIsOne(
    text: string, search: string, matchCase: bool, offsets: seq<nat>, others: seq<nat>)
    requires Leftmost(text, search, matchCase, offsets) && Leftmost(text, search, matchCase, others)
    ensures offsets == others
  {
    LeftmostAhead(text, search, matchCase, offsets, others);
    LeftmostAhead(text, search, matchCase, others, offsets);
    AheadOfEachOther(offsets, others);
  }

  /** The leftmost matches are as many as can be had without overlap, and none only if there is no match. */
  lemma {:induction false} LeftmostCounts(text: string, search: string, matchCase: bool, all: seq<nat>)
    requires Leftmost(text, search, matchCase, all)
    ensures forall offsets :: Apart(text, search, matchCase, 0, offsets) ==> |offsets| <= |all|
    ensures all == [] <==> forall o: nat :: !MatchAt(text, search, o, matchCase)
  {
    forall offsets | Apart(text, search, matchCase, 0, offsets) ensures |offsets| <= |all| {
      LeftmostAhead(text, search, matchCase, all, offsets);
    }
    if all != [] {
      assert MatchAt(text, search, all[0], matchCase);
    } else {
      forall o: nat ensures !MatchAt(text, search, o, matchCase) {
        assert !InsideOne(all, |search|, o);
      }
    }
  }

  /** The n-th match asked for is the n-th of the leftmost matches. */
  lemma {:induction false} NthIsRight(text: string, search: string, matchCase: bool, occurrence: int, k: nat,
                                      all: seq<nat>)
    requires Leftmost(text, search, matchCase, all) && occurrence > 0
    ensures NthLeftmost(text, search, matchCase, occurrence, k) <==>
            occurrence <= |all| && all[occurrence - 1] == k
  {
    if NthLeftmost(text, search, matchCase, occurrence, k) {
      var offsets :| Leftmost(text, search, matchCase, offsets) && occurrence <= |offsets| &&
                     offsets[occurrence - 1] == k;
      LeftmostIsOne(text, search, matchCase, offsets, all);
    }
  }

  /** A match is the only one when it is all of the leftmost matches. */
  lemma {:induction false} OnlyIsRight(text: string, search: string, matchCase: bool, k: nat, all: seq<nat>)
    requires Leftmost(text, search, matchCase, all)
    ensures AtMostOne(text, search, matchCase) <==> |all| <= 1
    ensures Leftmost(text, search, matchCase, [k]) <==> all == [k]
  {
    LeftmostCounts(text, search, matchCase, all);
    assert Apart(text, search, matchCase, 0, all);
    if Leftmost(text, search, matchCase, [k]) {
      LeftmostIsOne(text, search, matchCase, [k], all);
    }
  }

  /** The choice among the leftmost matches is right, and no other is. */
  lemma {:induction false} ChoiceIsRight(text: string, search: string, matchCase: bool, occurrence: int,
                                         choice: Choice, all: seq<nat>)
    requires Leftmost(text, search, matchCase, all)
    ensures RightChoice(text, search, matchCase, occurrence, choice) <==> Choose(all, occurrence) == choice
  {
    var k := if choice.Found? then choice.offset else 0;
    OnlyIsRight(text, search, matchCase, k, all);
    if occurrence > 0 { NthIsRight(text, search, matchCase, occurrence, k, all); }
    LeftmostCounts(text, search, matchCase, all);
    if choice.OccurrenceNotFound? { FewerThan(text, search, matchCase, occurrence, all); }
  }

  lemma {:induction false} FewerThan(text: string, search: string, matchCase: bool, n: int, all: seq<nat>)
    requires Leftmost(text, search, matchCase, all)
    ensures Fewer(text, search, matchCase, n) <==> |all| < n
  {
    LeftmostCounts(text, search, matchCase, all);
    assert Apart(text, search, matchCase, 0, all);
  }

  lemma {:induction false} ChooseIsRight(text: string, search: string, matchCase: bool, occurrence: int)
    requires search != []
    ensures forall choice ::
      RightChoice(text, search, matchCase, occurrence, choice) <==>
      choice == Choose(Greedy(text, search, matchCase, 0), occurrence)
  {
    GreedyIsLeftmost(text, search, matchCase);
    forall choice
      ensures RightChoice(text, search, matchCase, occurrence, choice) <==>
              choice == Choose(Greedy(text, search, matchCase, 0), occurrence)
    {
      ChoiceIsRight(text, search, matchCase, occurrence, choice, Greedy(text, search, matchCase, 0));
    }
  }

  /** A choice that is right is the one made, and a match found is a match. */
  lemma {:induction false} RightIsChosen(text: string, search: string, matchCase: bool, occurrence: int,
                                         choice: Choice)
    requires search != [] && RightChoice(text, search, matchCase, occurrence, choice)
    ensures Choose(Greedy(text, search, matchCase, 0), occurrence) == choice
    ensures choice.Found? ==> MatchAt(text, search, choice.offset, matchCase)
  {
    GreedyIsLeftmost(text, search, matchCase);
    ChoiceIsRight(text, search, matchCase, occurrence, choice, Greedy(text, search, matchCase, 0));
  }

  /** Only one answer is right, and some answer is. */
  lemma {:induction false} OneRightChoice(text: string, search: string, matchCase: bool, occurrence: int)
    requires search != []
    ensures exists choice :: RightChoice(text, search, matchCase, occurrence, choice)
    ensures forall a, b ::
      (RightChoice(text, search, matchCase, occurrence, a) && RightChoice(text, search, matchCase, occurrence, b)) ==>
        a == b
  {
    ChooseIsRight(text, search, matchCase, occurrence);
    assert RightChoice(text, search, matchCase, occurrence, Choose(Greedy(text, search, matchCase, 0), occurrence));
  }

  lemma {:induction false} ChosenIsRight(text: string, search: string, matchCase: bool, occurrence: int)
    returns (choice: Choice)
    requires search != []
    ensures choice == Choose(Greedy(text, search, matchCase, 0), occurrence)
    ensures RightChoice(text, search, matchCase, occurrence, choice)
    ensures choice.Found? ==> choice.offset + |search| <= |text|
  {
    choice := Choose(Greedy(text, search, matchCase, 0), occurrence);
    ChooseIsRight(text, search, matchCase, occurrence);
    RightIsChosen(text, search, matchCase, occurrence, choice);
  }
}
