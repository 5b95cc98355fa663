/**
 * A table cell as the engine holds it: letters and paragraph breaks. A text that is inserted becomes the letters and
 * breaks that the insertion types, and reads back as it was written; but two breaks typed one after the other stay
 * two, even where their spellings would be taken for one when the cell is read.
 */
module LiveCells {
  import opened Options
  import opened TextPositions
  import opened TextMatches
  import opened PatchReadback

  datatype Unit = Letter(c: char) | Break(spelling: string)

  /** The letters and breaks of a text. */
  function Units(s: string): seq<Unit>
    decreases |s|
  {
    if s == [] then []
    else if s[0] == '\r' && |s| > 1 && s[1] == '\n' then [Break("\r\n")] + Units(s[2..])
    else if IsBreak(s[0]) then [Break([s[0]])] + Units(s[1..])
    else [Letter(s[0])] + Units(s[1..])
  }

  function SpellUnit(u: Unit): string {
    match u
    case Letter(c) => [c]
    case Break(spelling) => spelling
  }

  /** What is read back from a cell. */
  function Spell(us: seq<Unit>): string {
    if us == [] then [] else SpellUnit(us[0]) + Spell(us[1..])
  }

  function PassUnit(p: Position, u: Unit): Position {
    if u.Letter? then NextCharacter(p) else NextParagraph(p)
  }

  /** The caret behind some units. */
  function Passed(start: Position, us: seq<Unit>): Position
    decreases |us|
  {
    if us == [] then start else Passed(PassUnit(start, us[0]), us[1..])
  }

  lemma {:induction false} UnitsFront(u: Unit, rest: seq<Unit>)
    ensures Spell([u] + rest) == SpellUnit(u) + Spell(rest)
    ensures forall p :: Passed(p, [u] + rest) == Passed(PassUnit(p, u), rest)
  {
    assert ([u] + rest)[1..] == rest;
  }

  /** A text is read back from its units, and its end is where the offset scanner puts it. */
  lemma {:induction false} UnitsOfText(start: Position, s: string)
    ensures Spell(Units(s)) == s && Passed(start, Units(s)) == After(start, s)
    decreases |s|
  {
    if s != [] {
      var pair := s[0] == '\r' && |s| > 1 && s[1] == '\n';
      var n := if pair then 2 else 1;
      var u := if pair then Break("\r\n") else if IsBreak(s[0]) then Break([s[0]]) else Letter(s[0]);
      UnitsOfText(PassUnit(start, u), s[n..]);
      UnitsFront(u, Units(s[n..]));
      assert s == s[..n] + s[n..] && SpellUnit(u) == s[..n];
    }
  }

  /** The units are what inserting the text types: the caret ends in the same place, and the letters are the same. */
  lemma {:induction false} UnitsAreTyped(start: Position, s: string)
    ensures Passed(start, Units(s)) == CaretAfter(start, Script(s))
    ensures Normalized(Spell(Units(s))) == Typed(Script(s))
  {
    UnitsOfText(start, s);
    InsertionAgrees(start, s);
    assert s[..|s|] == s;
  }

  lemma {:induction false} SpellConcat(a: seq<Unit>, b: seq<Unit>)
    ensures Spell(a + b) == Spell(a) + Spell(b)
    decreases |a|
  {
    if a == [] {
      assert a + b == b;
    } else {
      SpellConcat(a[1..], b);
      assert (a + b)[1..] == a[1..] + b;
      assert SpellUnit(a[0]) + (Spell(a[1..]) + Spell(b)) == (SpellUnit(a[0]) + Spell(a[1..])) + Spell(b);
    }
  }

  lemma {:induction false} PassedConcat(start: Position, a: seq<Unit>, b: seq<Unit>)
    ensures Passed(start, a + b) == Passed(Passed(start, a), b)
    decreases |a|
  {
    if a == [] {
      assert a + b == b;
    } else {
      PassedConcat(PassUnit(start, a[0]), a[1..], b);
      assert (a + b)[1..] == a[1..] + b;
    }
  }

  // ----- joining texts -----

  /** How many breaks are lost where two texts meet. */
  function Merged(a: string, b: string): nat {
    if InsidePair(a + b, |a|) then 1 else 0
  }

  ghost predicate Joins(a: string, b: string) {
    |Units(a + b)| == |Units(a)| + |Units(b)| - Merged(a, b) &&
    (Merged(a, b) == 0 ==> Units(a + b) == Units(a) + Units(b))
  }

  lemma {:induction false} MergedBehind(front: string, a: string, b: string)
    requires a != []
    ensures Merged(front + a, b) == Merged(a, b)
  {
    var text, whole := a + b, front + a + b;
    assert whole == front + text;
    assert whole[|front| + |a| - 1] == text[|a| - 1];
    assert b != [] ==> whole[|front| + |a|] == text[|a|];
  }

  /** One unit in front of two joined texts. */
  lemma {:induction false} UnitBehind(u: Unit, a: seq<Unit>, b: seq<Unit>, joined: seq<Unit>, merged: nat)
    requires |joined| == |a| + |b| - merged && (merged == 0 ==> joined == a + b)
    ensures |[u] + joined| == |[u] + a| + |b| - merged
    ensures merged == 0 ==> [u] + joined == ([u] + a) + b
  {
  }

  /** The first unit of a text, and the rest. */
  lemma {:induction false} FirstUnit(s: string)
    requires s != []
    ensures var pair := s[0] == '\r' && |s| > 1 && s[1] == '\n';
      var n := if pair then 2 else 1;
      var u := if pair then Break("\r\n") else if IsBreak(s[0]) then Break([s[0]]) else Letter(s[0]);
      Units(s) == [u] + Units(s[n..])
  {
  }

  lemma {:induction false} JoinsBehind(a: string, b: string, n: nat)
    requires |a| > 1 && a != "\r\n" && n == (if a[0] == '\r' && a[1] == '\n' then 2 else 1) && Joins(a[n..], b)
    ensures Joins(a, b)
  {
    var u := SameFirst(a, b, n);
    assert a[..n] + a[n..] == a;
    MergedBehind(a[..n], a[n..], b);
    UnitBehind(u, Units(a[n..]), Units(b), Units(a[n..] + b), Merged(a, b));
  }

  /** What follows does not change the first unit of a longer text. */
  lemma {:induction false} SameFirst(a: string, b: string, n: nat) returns (u: Unit)
    requires |a| > 1 && n == if a[0] == '\r' && a[1] == '\n' then 2 else 1
    ensures Units(a) == [u] + Units(a[n..]) && Units(a + b) == [u] + Units(a[n..] + b)
  {
    FirstUnit(a);
    FirstUnit(a + b);
    assert (a + b)[n..] == a[n..] + b;
    u := Units(a)[0];
  }

  /** Joining two texts joins their units, unless a CR and an LF meet and become one break. */
  lemma {:induction false} UnitsConcat(a: string, b: string)
    ensures Joins(a, b)
    decreases |a|
  {
    if a == [] {
      assert a + b == b;
    } else if a == "\r\n" {
      PairThenText(b);
    } else if |a| == 1 {
      OneThenText(a, b);
    } else {
      var n := if a[0] == '\r' && a[1] == '\n' then 2 else 1;
      UnitsConcat(a[n..], b);
      JoinsBehind(a, b, n);
    }
  }

  lemma {:induction false} PairThenText(b: string)
    ensures Joins("\r\n", b)
  {
    var a := "\r\n";
    FirstUnit(a);
    FirstUnit(a + b);
    assert (a + b)[2..] == b && a[2..] == [];
  }

  lemma {:induction false} OneThenText(a: string, b: string)
    requires |a| == 1
    ensures Joins(a, b)
  {
    FirstUnit(a);
    FirstUnit(a + b);
    assert a[1..] == [] && (a + b)[1..] == b;
    if InsidePair(a + b, 1) {
      FirstUnit(b);
      assert (a + b)[2..] == b[1..];
    }
  }

  /** A replacement between its neighbours forms no new pair with them. */
  predicate SeamsWhole(before: string, replacement: string, after: string) {
    var text := before + replacement + after;
    !InsidePair(text, |before|) && !InsidePair(text, |before| + |replacement|)
  }

  lemma {:induction false} UnitsOfThree(before: string, replacement: string, after: string)
    ensures Units(before + replacement + after) == Units(before) + Units(replacement) + Units(after) <==>
            SeamsWhole(before, replacement, after)
  {
    var front := before + replacement;
    UnitsConcat(front, after);
    UnitsConcat(before, replacement);
    if replacement == [] {
      assert front == before && !InsidePair(front, |before|);
      assert Units(before) + Units(replacement) == Units(before);
    } else {
      assert InsidePair(front, |before|) <==> InsidePair(front + after, |before|);
    }
  }

  // ----- positions in a cell -----

  /** The unit in front of which the caret is at a position, if any is. */
  function IndexAt(start: Position, us: seq<Unit>, p: Position): Option<nat>
    decreases |us|
  {
    if start == p then Some(0)
    else if us == [] then None
    else
      var rest := IndexAt(PassUnit(start, us[0]), us[1..], p);
      if rest.None? then None else Some(rest.value + 1)
  }

  lemma {:induction false} PassedAhead(start: Position, us: seq<Unit>)
    ensures Passed(start, us).list == start.list
    ensures us != [] ==> PositionBefore(start, Passed(start, us))
    decreases |us|
  {
    if us != [] {
      PassedAhead(PassUnit(start, us[0]), us[1..]);
    }
  }

  /** Every unit has its own position. */
  lemma {:induction false} IndexOfPassed(start: Position, us: seq<Unit>, i: nat)
    requires i <= |us|
    ensures IndexAt(start, us, Passed(start, us[..i])) == Some(i)
    decreases i
  {
    if i > 0 {
      PassedAhead(start, us[..i]);
      assert us[..i][1..] == us[1..][..i - 1];
      IndexOfPassed(PassUnit(start, us[0]), us[1..], i - 1);
    }
  }

  /** The position of an offset leads to the unit that begins at its canonical offset. */
  lemma {:induction false} OffsetToUnit(start: Position, text: string, offset: nat)
    requires offset <= |text|
    ensures var at := Canonical(text, offset);
      at <= |text| && !InsidePair(text, at) &&
      IndexAt(start, Units(text), PositionAt(start, text, offset)) == Some(|Units(text[..at])|)
  {
    var at := Canonical(text, offset);
    PositionsFollowOffsets(start, text, offset, at);
    UnitsConcat(text[..at], text[at..]);
    assert text == text[..at] + text[at..];
    UnitsOfText(start, text[..at]);
    var n := |Units(text[..at])|;
    assert Units(text)[..n] == Units(text[..at]);
    IndexOfPassed(start, Units(text), n);
  }

  // ----- one patch on a cell -----

  datatype LivePatched = Cell(units: seq<Unit>) | Refused

  /** Replaces what is selected between two positions, if they select something that reads as expected. */
  function ReplaceBetween(start: Position, us: seq<Unit>, from: Position, to: Position, expected: string,
                          matchCase: bool, replacement: string): LivePatched
  {
    var i, j := IndexAt(start, us, from), IndexAt(start, us, to);
    if i.None? || j.None? || i.value >= j.value || j.value > |us| then Refused
    else if !ExactReadback(Spell(us[i.value..j.value]), expected, matchCase) then Refused
    else Cell(us[..i.value] + Units(replacement) + us[j.value..])
  }

  /** A patch in the live cell: it scans what it reads, and selects the positions that the scan computes. */
  function PatchCellUnits(start: Position, us: seq<Unit>, search: string, matchCase: bool, occurrence: int,
                          replacement: string): LivePatched
    requires search != []
  {
    PatchRead(start, us, Spell(us), search, matchCase, occurrence, replacement)
  }

  /** The same, for the text that was read. */
  function PatchRead(start: Position, us: seq<Unit>, text: string, search: string, matchCase: bool, occurrence: int,
                     replacement: string): LivePatched
    requires search != []
  {
    var choice := Choose(Greedy(text, search, matchCase, 0), occurrence);
    if choice.Found? && choice.offset + |search| <= |text| then
      ReplaceBetween(start, us, PositionAt(start, text, choice.offset),
                     PositionAt(start, text, choice.offset + |search|), search, matchCase, replacement)
    else Refused
  }

  /** The outcome between two positions whose units are known. */
  lemma {:induction false} BetweenUnits(start: Position, us: seq<Unit>, from: Position, to: Position, i: nat, j: nat,
                                        window: string, expected: string, matchCase: bool, replacement: string)
    requires IndexAt(start, us, from) == Some(i) && IndexAt(start, us, to) == Some(j) && i <= j <= |us|
    requires Spell(us[i..j]) == window
    ensures ReplaceBetween(start, us, from, to, expected, matchCase, replacement) ==
            if i == j || !ExactReadback(window, expected, matchCase) then Refused
            else Cell(us[..i] + Units(replacement) + us[j..])
  {
  }

  /** What the engine does to a text, as a result on the units of the text. */
  function LiveResult(text: string, search: string, matchCase: bool, offset: nat, replacement: string): LivePatched
    requires offset + |search| <= |text|
  {
    var from, to := Canonical(text, offset), Canonical(text, offset + |search|);
    if from >= to || to > |text| || !ExactReadback(text[from..to], search, matchCase) then Refused
    else Cell(Units(text[..from]) + Units(replacement) + Units(text[to..]))
  }

  /** In a cell that holds the units of its own text, the engine does what the positions say of the text. */
  lemma {:induction false} ReplaceInCell(start: Position, text: string, search: string, matchCase: bool, offset: nat,
                                         replacement: string)
    requires offset + |search| <= |text|
    ensures ReplaceBetween(start, Units(text), PositionAt(start, text, offset),
                           PositionAt(start, text, offset + |search|), search, matchCase, replacement) ==
            LiveResult(text, search, matchCase, offset, replacement)
  {
    var from, to := Canonical(text, offset), Canonical(text, offset + |search|);
    OffsetToUnit(start, text, offset);
    OffsetToUnit(start, text, offset + |search|);
    CanonicalMonotone(text, offset, offset + |search|);
    BetweenOffsets(start, text, from, to, PositionAt(start, text, offset), PositionAt(start, text, offset + |search|),
                   search, matchCase, replacement);
  }

  lemma {:induction false} BetweenOffsets(start: Position, text: string, from: nat, to: nat, p: Position, q: Position,
                                          expected: string, matchCase: bool, replacement: string)
    requires from <= to <= |text| && !InsidePair(text, from) && !InsidePair(text, to)
    requires IndexAt(start, Units(text), p) == Some(|Units(text[..from])|)
    requires IndexAt(start, Units(text), q) == Some(|Units(text[..to])|)
    ensures ReplaceBetween(start, Units(text), p, q, expected, matchCase, replacement) ==
            if from == to || !ExactReadback(text[from..to], expected, matchCase) then Refused
            else Cell(Units(text[..from]) + Units(replacement) + Units(text[to..]))
  {
    UnitsBetween(start, text, from, to);
    BetweenUnits(start, Units(text), p, q, |Units(text[..from])|, |Units(text[..to])|, text[from..to], expected,
                 matchCase, replacement);
  }

  lemma {:induction false} UnitsBetween(start: Position, text: string, from: nat, to: nat)
    requires from <= to <= |text| && !InsidePair(text, from) && !InsidePair(text, to)
    ensures var us, i, j := Units(text), |Units(text[..from])|, |Units(text[..to])|;
      i <= j <= |us| && (i == j <==> from == to) && Spell(us[i..j]) == text[from..to] &&
      us[..i] == Units(text[..from]) && us[j..] == Units(text[to..])
  {
    var a, m, b := text[..from], text[from..to], text[to..];
    assert text[..to] == a + m && text == (a + m) + b;
    UnitsConcat(a + m, b);
    UnitsConcat(a, m);
    assert InsidePair(a + m, |a|) ==> InsidePair(text, from);
    var us, i, j := Units(text), |Units(a)|, |Units(a + m)|;
    assert us == Units(a) + Units(m) + Units(b);
    assert us[i..j] == Units(m) && us[..i] == Units(a) && us[j..] == Units(b);
    UnitsOfText(start, m);
  }

  // ----- agreement with the shadow copy -----

  /** The live cell ends as the units of the text that the shadow copy predicts, or both refuse. */
  ghost predicate Agrees(start: Position, text: string, search: string, matchCase: bool, occurrence: int,
                         replacement: string)
    requires search != []
  {
    PatchCellUnits(start, Units(text), search, matchCase, occurrence, replacement) ==
    Predicted(ShadowPatch(text, search, matchCase, occurrence, replacement))
  }

  /** The chosen match, if there is one, cuts no pair, and its replacement forms none. */
  predicate ChosenClean(text: string, search: string, matchCase: bool, occurrence: int, replacement: string)
    requires search != []
  {
    var choice := Choose(Greedy(text, search, matchCase, 0), occurrence);
    choice.Found? && choice.offset + |search| <= |text| ==> Clean(text, choice.offset, |search|, replacement)
  }

  /** The live cell does what the shadow copy predicted exactly when no pair is cut and none is formed. */
  lemma {:induction false} CellAgrees(start: Position, text: string, search: string, matchCase: bool, occurrence: int,
                                      replacement: string)
    requires search != []
    ensures Agrees(start, text, search, matchCase, occurrence, replacement) <==>
            ChosenClean(text, search, matchCase, occurrence, replacement)
  {
    UnitsOfText(start, text);
    ReadAgrees(start, text, search, matchCase, occurrence, replacement);
  }

  lemma {:induction false} ReadAgrees(start: Position, text: string, search: string, matchCase: bool, occurrence: int,
                                      replacement: string)
    requires search != []
    ensures PatchRead(start, Units(text), text, search, matchCase, occurrence, replacement) ==
            Predicted(ShadowPatch(text, search, matchCase, occurrence, replacement)) <==>
            ChosenClean(text, search, matchCase, occurrence, replacement)
  {
    ChosenMatches(text, search, matchCase, occurrence);
    ChoiceAgrees(start, Units(text), text, search, matchCase, occurrence, replacement);
  }

  lemma {:induction false} ChoiceAgrees(start: Position, us: seq<Unit>, text: string, search: string, matchCase: bool,
                                        occurrence: int, replacement: string)
    requires search != [] && us == Units(text)
    requires var choice := Choose(Greedy(text, search, matchCase, 0), occurrence);
      choice.Found? ==> MatchAt(text, search, choice.offset, matchCase)
    ensures PatchRead(start, us, text, search, matchCase, occurrence, replacement) ==
            Predicted(ShadowPatch(text, search, matchCase, occurrence, replacement)) <==>
            ChosenClean(text, search, matchCase, occurrence, replacement)
  {
    var choice := Choose(Greedy(text, search, matchCase, 0), occurrence);
    if choice.Found? {
      OfferedAgrees(start, us, text, search, matchCase, occurrence, replacement, choice.offset);
    } else {
      NothingRead(start, us, text, search, matchCase, occurrence, replacement);
    }
  }

  lemma {:induction false} OfferedAgrees(start: Position, us: seq<Unit>, text: string, search: string, matchCase: bool,
                                         occurrence: int, replacement: string, offset: nat)
    requires search != [] && us == Units(text) && MatchAt(text, search, offset, matchCase)
    requires Choose(Greedy(text, search, matchCase, 0), occurrence) == Found(offset)
    ensures PatchRead(start, us, text, search, matchCase, occurrence, replacement) ==
            Predicted(ShadowPatch(text, search, matchCase, occurrence, replacement)) <==>
            ChosenClean(text, search, matchCase, occurrence, replacement)
  {
    var live, shadow := FoundRead(start, us, text, search, matchCase, occurrence, replacement, offset);
    FoundAgrees(start, text, search, matchCase, offset, replacement);
  }

  lemma {:induction false} NothingRead(start: Position, us: seq<Unit>, text: string, search: string, matchCase: bool,
                                       occurrence: int, replacement: string)
    requires search != [] && !Choose(Greedy(text, search, matchCase, 0), occurrence).Found?
    ensures PatchRead(start, us, text, search, matchCase, occurrence, replacement) == Refused
    ensures Predicted(ShadowPatch(text, search, matchCase, occurrence, replacement)) == Refused
    ensures ChosenClean(text, search, matchCase, occurrence, replacement)
  {
  }

  /** With a match chosen, all three speak of that match. */
  lemma {:induction false} FoundRead(start: Position, us: seq<Unit>, text: string, search: string, matchCase: bool,
                                     occurrence: int, replacement: string, offset: nat)
    returns (live: LivePatched, shadow: LivePatched)
    requires search != [] && Choose(Greedy(text, search, matchCase, 0), occurrence) == Found(offset)
    requires offset + |search| <= |text|
    ensures live == ReplaceBetween(start, us, PositionAt(start, text, offset),
                                   PositionAt(start, text, offset + |search|), search, matchCase, replacement)
    ensures shadow == Cell(Units(Replace(text, offset, offset + |search|, replacement)))
    ensures PatchRead(start, us, text, search, matchCase, occurrence, replacement) == live
    ensures Predicted(ShadowPatch(text, search, matchCase, occurrence, replacement)) == shadow
    ensures ChosenClean(text, search, matchCase, occurrence, replacement) <==>
            Clean(text, offset, |search|, replacement)
  {
    live := PatchRead(start, us, text, search, matchCase, occurrence, replacement);
    shadow := Predicted(ShadowPatch(text, search, matchCase, occurrence, replacement));
  }

  /** A patch in the live cell selects the match that it asks for, and refuses where that is no one match. */
  lemma {:induction false} LiveChoice(start: Position, us: seq<Unit>, text: string, search: string, matchCase: bool,
                                      occurrence: int, replacement: string, choice: Choice)
    requires search != [] && Spell(us) == text && RightChoice(text, search, matchCase, occurrence, choice)
    ensures choice.Found? ==> MatchAt(text, search, choice.offset, matchCase)
    ensures PatchCellUnits(start, us, search, matchCase, occurrence, replacement) ==
            if !choice.Found? then Refused
            else ReplaceBetween(start, us, PositionAt(start, text, choice.offset),
                                PositionAt(start, text, choice.offset + |search|), search, matchCase, replacement)
  {
    RightIsChosen(text, search, matchCase, occurrence, choice);
    ReadChoice(start, us, text, search, matchCase, occurrence, replacement, choice);
  }

  lemma {:induction false} ReadChoice(start: Position, us: seq<Unit>, text: string, search: string, matchCase: bool,
                                      occurrence: int, replacement: string, choice: Choice)
    requires search != [] && Choose(Greedy(text, search, matchCase, 0), occurrence) == choice
    requires choice.Found? ==> choice.offset + |search| <= |text|
    ensures PatchRead(start, us, text, search, matchCase, occurrence, replacement) ==
            if !choice.Found? then Refused
            else ReplaceBetween(start, us, PositionAt(start, text, choice.offset),
                                PositionAt(start, text, choice.offset + |search|), search, matchCase, replacement)
  {
    if choice.Found? {
      var live, shadow := FoundRead(start, us, text, search, matchCase, occurrence, replacement, choice.offset);
    }
  }

  /** The chosen match, live and in the shadow copy. */
  lemma {:induction false} FoundAgrees(start: Position, text: string, search: string, matchCase: bool, offset: nat,
                                       replacement: string)
    requires search != [] && MatchAt(text, search, offset, matchCase)
    ensures ReplaceBetween(start, Units(text), PositionAt(start, text, offset),
                           PositionAt(start, text, offset + |search|), search, matchCase, replacement) ==
            Cell(Units(Replace(text, offset, offset + |search|, replacement))) <==>
            Clean(text, offset, |search|, replacement)
  {
    ReplaceInCell(start, text, search, matchCase, offset, replacement);
    MatchAgrees(text, search, matchCase, offset, replacement);
  }

  /** The cell that the shadow copy predicts. */
  function Predicted(shadow: Patched): LivePatched {
    if shadow.Text? then Cell(Units(shadow.text)) else Refused
  }

  predicate Clean(text: string, offset: nat, length: nat, replacement: string)
    requires offset + length <= |text|
  {
    Whole(text, offset, length) && SeamsWhole(text[..offset], replacement, text[offset + length..])
  }

  /** What the engine makes of a match is what the shadow copy has exactly for a clean one. */
  lemma {:induction false} MatchAgrees(text: string, search: string, matchCase: bool, offset: nat, replacement: string)
    requires search != [] && MatchAt(text, search, offset, matchCase)
    ensures LiveResult(text, search, matchCase, offset, replacement) ==
            Cell(Units(Replace(text, offset, offset + |search|, replacement))) <==>
            Clean(text, offset, |search|, replacement)
  {
    if Whole(text, offset, |search|) {
      WholeAgrees(text, search, matchCase, offset, replacement);
    } else if InsidePair(text, offset) {
      SplitStartRefused(text, search, matchCase, offset, replacement);
    } else {
      SplitEndDiverges(text, search, matchCase, offset, replacement);
      LongerShadow(text, offset, |search|, replacement);
    }
  }

  lemma {:induction false} WholeAgrees(text: string, search: string, matchCase: bool, offset: nat, replacement: string)
    requires search != [] && MatchAt(text, search, offset, matchCase) && Whole(text, offset, |search|)
    ensures LiveResult(text, search, matchCase, offset, replacement) ==
            Cell(Units(Replace(text, offset, offset + |search|, replacement))) <==>
            Clean(text, offset, |search|, replacement)
  {
    WholeRead(text, search, matchCase, offset);
    UnitsOfThree(text[..offset], replacement, text[offset + |search|..]);
  }

  lemma {:induction false} WholeRead(text: string, search: string, matchCase: bool, offset: nat)
    requires MatchAt(text, search, offset, matchCase)
    ensures ExactReadback(text[offset..offset + |search|], search, matchCase)
  {
    SameNormalized(text[offset..offset + |search|], search, matchCase);
  }

  /** One character more taken out leaves other units. */
  lemma {:induction false} LongerShadow(text: string, offset: nat, length: nat, replacement: string)
    requires offset + length < |text|
    ensures Units(text[..offset]) + Units(replacement) + Units(text[offset + length + 1..]) !=
            Units(Replace(text, offset, offset + length, replacement))
  {
    ShorterUnits(text[..offset], replacement, text[offset + length + 1..],
                 Replace(text, offset, offset + length, replacement));
  }

  lemma {:induction false} ShorterUnits(before: string, replacement: string, after: string, shadow: string)
    requires |before| + |replacement| + |after| < |shadow|
    ensures Units(before) + Units(replacement) + Units(after) != Units(shadow)
  {
    var p := Position(0, 0, 0);
    UnitsOfText(p, before);
    UnitsOfText(p, replacement);
    UnitsOfText(p, after);
    UnitsOfText(p, shadow);
    SpellConcat(Units(before), Units(replacement));
    SpellConcat(Units(before) + Units(replacement), Units(after));
  }

  // ----- the condition a caller can check on the command alone -----

  /** A replacement that can never form a pair: there is something in it, and neither end of it is half a pair. */
  predicate SafeReplacement(replacement: string) {
    replacement != [] && replacement[0] != '\n' && replacement[|replacement| - 1] != '\r'
  }

  ghost predicate AlwaysAgrees(start: Position, search: string, matchCase: bool, replacement: string)
    requires search != []
  {
    forall text, occurrence :: Agrees(start, text, search, matchCase, occurrence, replacement)
  }

  lemma {:induction false} SafeIsClean(text: string, search: string, matchCase: bool, occurrence: int,
                                       replacement: string)
    requires search != [] && SafeSearch(search) && SafeReplacement(replacement)
    ensures ChosenClean(text, search, matchCase, occurrence, replacement)
  {
    SafeIsWhole(text, search, matchCase, occurrence);
  }

  /** A cell text in which a safe search is replaced between two halves of a pair. */
  lemma {:induction false} SeamTrap(search: string, matchCase: bool, replacement: string)
    requires search != [] && SafeSearch(search) && !SafeReplacement(replacement)
    ensures !ChosenClean("\r" + search + "\n", search, matchCase, 1, replacement)
  {
    var text, n := "\r" + search + "\n", |search|;
    assert text[1..1 + n] == search && MatchAt(text, search, 1, matchCase);
    assert Greedy(text, search, matchCase, 1) == [1] + Greedy(text, search, matchCase, 1 + n);
    if MatchAt(text, search, 0, matchCase) {
      AllReturns(text, search, matchCase, n);
    }
    assert text[..1] == "\r" && text[1 + n..] == "\n";
  }

  /** A match at the front of such a text would make the search end in CR. */
  lemma {:induction false} AllReturns(text: string, search: string, matchCase: bool, k: nat)
    requires text == "\r" + search + "\n" && 0 < k <= |search| && MatchAt(text, search, 0, matchCase)
    ensures search[k - 1] == '\r'
  {
    assert SameCharacter(text[0..|search|][k - 1], search[k - 1], matchCase);
    if k > 1 {
      AllReturns(text, search, matchCase, k - 1);
      assert text[k - 1] == search[k - 2];
    }
  }

  /** Dry run and execution agree on every cell text exactly for safe searches with safe replacements. */
  lemma {:induction false} SafePatchDecides(start: Position, search: string, matchCase: bool, replacement: string)
    requires search != []
    ensures AlwaysAgrees(start, search, matchCase, replacement) <==> SafeSearch(search) && SafeReplacement(replacement)
  {
    if SafeSearch(search) && SafeReplacement(replacement) {
      forall text, occurrence ensures Agrees(start, text, search, matchCase, occurrence, replacement) {
        SafeIsClean(text, search, matchCase, occurrence, replacement);
        CellAgrees(start, text, search, matchCase, occurrence, replacement);
      }
    } else if SafeSearch(search) {
      SeamTrap(search, matchCase, replacement);
      CellAgrees(start, "\r" + search + "\n", search, matchCase, 1, replacement);
    } else {
      TrapSprings(search, matchCase);
      ChosenMatches(Trap(search).0, search, matchCase, 1);
      CellAgrees(start, Trap(search).0, search, matchCase, 1, replacement);
    }
  }
}
