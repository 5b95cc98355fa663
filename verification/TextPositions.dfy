/** Where the caret is after a stretch of text, and what typing the text into the engine does to it.
    A paragraph break is CR LF, a lone CR or a lone LF, and three scanners have to agree on that. */
module TextPositions {

  datatype Position = Position(list: int, paragraph: int, character: int)

  predicate IsBreak(c: char) { c == '\r' || c == '\n' }

  function NextParagraph(p: Position): Position { p.(paragraph := p.paragraph + 1, character := 0) }

  function NextCharacter(p: Position): Position { p.(character := p.character + 1) }

  /** The caret after passing over `s`. */
  function After(start: Position, s: string): Position
    decreases |s|
  {
    if s == [] then start
    else if s[0] == '\r' && |s| > 1 && s[1] == '\n' then After(NextParagraph(start), s[2..])
    else if IsBreak(s[0]) then After(NextParagraph(start), s[1..])
    else After(NextCharacter(start), s[1..])
  }

  function PositionAt(start: Position, text: string, offset: nat): Position
    requires offset <= |text|
  {
    After(start, text[..offset])
  }

  /** The caret at an offset. A pair cut in two by the offset counts as its first half. */
  method TextPositionAtOffset(start: Position, text: string, offset: nat) returns (position: Position)
    requires offset <= |text|
    ensures position == PositionAt(start, text, offset)
  {
    position := start;
    var index := 0;
    ghost var prefix := text[..offset];
    assert prefix[0..] == prefix;
    while index < offset
      invariant 0 <= index <= offset
      invariant After(start, prefix) == After(position, prefix[index..])
    {
      assert text[index] == prefix[index..][0];
      if text[index] == '\r' && index + 1 < offset && text[index + 1] == '\n' {
        assert prefix[index..][2..] == prefix[index + 2..];
        position := NextParagraph(position);
        index := index + 1;
      } else if text[index] == '\r' || text[index] == '\n' {
        assert prefix[index..][1..] == prefix[index + 1..];
        position := NextParagraph(position);
      } else {
        assert prefix[index..][1..] == prefix[index + 1..];
        position := NextCharacter(position);
      }
      index := index + 1;
    }
    assert prefix[index..] == [];
  }

  // ----- normalized line breaks -----

  /** Every break as one LF. */
  function Normalized(s: string): string
    decreases |s|
  {
    if s == [] then []
    else if s[0] == '\r' then "\n" + Normalized(if |s| > 1 && s[1] == '\n' then s[2..] else s[1..])
    else [s[0]] + Normalized(s[1..])
  }

  method NormalizeLineBreaks(value: string) returns (normalized: string)
    ensures normalized == Normalized(value)
  {
    normalized := [];
    var index := 0;
    assert value[0..] == value;
    while index < |value|
      invariant 0 <= index <= |value|
      invariant Normalized(value) == normalized + Normalized(value[index..])
    {
      ghost var rest, before := value[index..], normalized;
      if value[index] == '\r' {
        normalized := normalized + ['\n'];
        if index + 1 < |value| && value[index + 1] == '\n' {
          index := index + 1;
          assert rest[2..] == value[index + 1..];
        } else {
          assert rest[1..] == value[index + 1..];
        }
        assert before + ("\n" + Normalized(value[index + 1..])) == normalized + Normalized(value[index + 1..]);
      } else {
        normalized := normalized + [value[index]];
        assert rest[1..] == value[index + 1..];
        assert before + ([rest[0]] + Normalized(rest[1..])) == normalized + Normalized(value[index + 1..]);
      }
      index := index + 1;
    }
    assert normalized + Normalized([]) == normalized;
  }

  predicate SameParagraphText(a: string, b: string) { Normalized(a) == Normalized(b) }

  // ----- typing text into the engine -----

  datatype EditAction = BreakParagraph | TypeText(segment: string)

  /** The engine's caret after an action: a break starts a paragraph, typed text advances by its length. */
  function CaretAfter(start: Position, actions: seq<EditAction>): Position {
    if actions == [] then start
    else
      var caret := CaretAfter(start, actions[..|actions| - 1]);
      match actions[|actions| - 1]
      case BreakParagraph => NextParagraph(caret)
      case TypeText(segment) => Advance(caret, |segment|)
  }

  /** The text those actions put into the document, with LF for a break. */
  function Typed(actions: seq<EditAction>): string {
    if actions == [] then []
    else Typed(actions[..|actions| - 1]) + TypedBy(actions[|actions| - 1])
  }

  function TypedBy(action: EditAction): string {
    match action
    case BreakParagraph => "\n"
    case TypeText(segment) => segment
  }

  /** Length of the text before the first break. */
  function BreakIndex(s: string): (n: nat)
    ensures n <= |s| && (forall i :: 0 <= i < n ==> !IsBreak(s[i])) && (n < |s| ==> IsBreak(s[n]))
  {
    if s == [] || IsBreak(s[0]) then 0
    else
      var n := 1 + BreakIndex(s[1..]);
      assert forall i :: 1 <= i < n ==> s[i] == s[1..][i - 1];
      n
  }

  /** Number of characters in the break at the front of `s`. */
  function BreakLength(s: string): (n: nat)
    requires s != [] && IsBreak(s[0])
    ensures 1 <= n <= |s|
  {
    if s[0] == '\r' && |s| > 1 && s[1] == '\n' then 2 else 1
  }

  function TypeSegment(segment: string): seq<EditAction> { if segment == [] then [] else [TypeText(segment)] }

  /** What is left after the first segment and the break behind it. */
  function NextLine(text: string): (rest: string)
    requires BreakIndex(text) < |text|
    ensures |rest| < |text|
  {
    var tail := text[BreakIndex(text)..];
    tail[BreakLength(tail)..]
  }

  /** The actions that insert a text: its segments, with a paragraph break between any two. */
  function Script(text: string): seq<EditAction>
    decreases |text|, 1
  {
    TypeSegment(text[..BreakIndex(text)]) + ScriptTail(text)
  }

  function ScriptTail(text: string): seq<EditAction>
    decreases |text|, 0
  {
    if BreakIndex(text) == |text| then [] else [BreakParagraph] + Script(NextLine(text))
  }

  /** Asks the engine for one action. It has `willing - |done|` more to give. */
  method Perform(done: seq<EditAction>, action: EditAction, willing: nat) returns (ok: bool, actions: seq<EditAction>)
    requires |done| <= willing
    ensures ok <==> |done| < willing
    ensures actions == if ok then done + [action] else done
  {
    ok := |done| < willing;
    actions := if ok then done + [action] else done;
  }

  function Line(text: string, first: bool): seq<EditAction> {
    (if first then [] else [BreakParagraph]) + TypeSegment(text[..BreakIndex(text)])
  }

  /** One turn of the loop: the break before the segment, unless it is the first, and the segment. */
  method InsertLine(text: string, first: bool, done: seq<EditAction>, willing: nat)
    returns (ok: bool, actions: seq<EditAction>)
    requires |done| <= willing
    ensures ok <==> |done + Line(text, first)| <= willing
    ensures actions == if ok then done + Line(text, first) else (done + Line(text, first))[..willing]
  {
    ok, actions := true, done;
    if !first {
      ok, actions := Perform(actions, BreakParagraph, willing);
      if !ok {
        return;
      }
    }
    var segment := text[..BreakIndex(text)];
    if segment != [] {
      ok, actions := Perform(actions, TypeText(segment), willing);
    }
  }

  lemma {:induction false} TailStep(text: string)
    requires BreakIndex(text) < |text|
    ensures ScriptTail(text) == Line(NextLine(text), false) + ScriptTail(NextLine(text))
  {
  }

  /** How far the loop has come: everything up to the current segment, or the refused prefix. */
  ghost predicate Inserted(script: seq<EditAction>, actions: seq<EditAction>, tail: seq<EditAction>, willing: nat,
                           ok: bool) {
    if ok then script == actions + tail && |actions| <= willing
    else |script| > willing && actions == script[..willing]
  }

  lemma {:induction false} LineInserted(
    script: seq<EditAction>, done: seq<EditAction>, line: seq<EditAction>, tail: seq<EditAction>,
    willing: nat, ok: bool, actions: seq<EditAction>)
    requires script == done + (line + tail) && (ok <==> |done + line| <= willing)
    requires actions == if ok then done + line else (done + line)[..willing]
    ensures Inserted(script, actions, tail, willing, ok)
  {
    assert script == (done + line) + tail;
  }

  /** Inserts a text. The engine carries out the first `willing` actions and refuses the next one. */
  method InsertText(text: string, willing: nat)
    returns (ok: bool, actions: seq<EditAction>, partialMutation: bool)
    ensures ok <==> |Script(text)| <= willing
    ensures actions == if ok then Script(text) else Script(text)[..willing]
    ensures partialMutation <==> actions != []
  {
    ghost var script := Script(text);
    var rest, first := text, true;
    ok, actions := InsertLine(rest, first, [], willing);
    ScriptBegins(text);
    LineInserted(script, [], Line(text, true), ScriptTail(text), willing, ok, actions);
    while ok && BreakIndex(rest) < |rest|
      invariant Inserted(script, actions, ScriptTail(rest), willing, ok)
      decreases ok, |rest|
    {
      var before := actions;
      TailStep(rest);
      rest, first := NextLine(rest), false;
      ok, actions := InsertLine(rest, first, before, willing);
      LineInserted(script, before, Line(rest, false), ScriptTail(rest), willing, ok, actions);
    }
    InsertedAll(script, actions, rest, willing, ok);
    partialMutation := actions != [];
  }

  lemma {:induction false} ScriptBegins(text: string)
    ensures Script(text) == [] + (Line(text, true) + ScriptTail(text))
  {
  }

  /** What has been done when the loop ends, after the last line or at a refusal. */
  lemma {:induction false} InsertedAll(script: seq<EditAction>, actions: seq<EditAction>, rest: string, willing: nat,
                                       ok: bool)
    requires Inserted(script, actions, ScriptTail(rest), willing, ok) && (ok ==> BreakIndex(rest) == |rest|)
    ensures ok <==> |script| <= willing
    ensures actions == if ok then script else script[..willing]
  {
    if ok {
      assert actions + [] == actions;
    }
  }

  // ----- agreement of the scanners -----

  lemma {:induction false} CaretOfConcat(start: Position, a: seq<EditAction>, b: seq<EditAction>)
    ensures CaretAfter(start, a + b) == CaretAfter(CaretAfter(start, a), b)
    decreases |b|
  {
    if b == [] {
      assert a + b == a;
    } else {
      var n := |b| - 1;
      CaretOfConcat(start, a, b[..n]);
      assert (a + b)[..|a + b| - 1] == a + b[..n];
    }
  }

  lemma {:induction false} TypedStep(done: seq<EditAction>, action: EditAction)
    ensures Typed(done + [action]) == Typed(done) + TypedBy(action)
  {
    assert (done + [action])[..|done|] == done;
  }

  lemma {:induction false} Grouped(a: string, b: string, c: string)
    ensures a + (b + c) == (a + b) + c
  {
  }

  lemma {:induction false} TypedOneMore(a: seq<EditAction>, front: seq<EditAction>, last: EditAction)
    requires Typed(a + front) == Typed(a) + Typed(front)
    ensures Typed(a + (front + [last])) == Typed(a) + Typed(front + [last])
  {
    TypedStep(a + front, last);
    TypedStep(front, last);
    Grouped(Typed(a), Typed(front), TypedBy(last));
    assert a + (front + [last]) == (a + front) + [last];
  }

  lemma {:induction false} TypedOfConcat(a: seq<EditAction>, b: seq<EditAction>)
    ensures Typed(a + b) == Typed(a) + Typed(b)
    decreases |b|
  {
    if b == [] {
      assert a + b == a;
    } else {
      var front, last := b[..|b| - 1], b[|b| - 1];
      assert b == front + [last];
      TypedOfConcat(a, front);
      TypedOneMore(a, front, last);
    }
  }

  function Advance(p: Position, n: nat): Position { p.(character := p.character + n) }

  lemma {:induction false} PlainRun(start: Position, s: string, n: nat)
    requires n <= |s| && forall i :: 0 <= i < n ==> !IsBreak(s[i])
    ensures After(start, s) == After(Advance(start, n), s[n..])
    decreases n
  {
    if n == 0 {
      assert s[0..] == s && Advance(start, 0) == start;
    } else {
      PlainRun(NextCharacter(start), s[1..], n - 1);
      assert s[1..][n - 1..] == s[n..];
      assert Advance(NextCharacter(start), n - 1) == Advance(start, n);
    }
  }

  lemma {:induction false} PlainText(s: string, n: nat)
    requires n <= |s| && forall i :: 0 <= i < n ==> !IsBreak(s[i])
    ensures Normalized(s) == s[..n] + Normalized(s[n..])
    decreases n
  {
    if n == 0 {
      assert s[0..] == s && s[..0] == [];
    } else {
      PlainText(s[1..], n - 1);
      assert s[1..][n - 1..] == s[n..];
      assert s[..n] == [s[0]] + s[1..][..n - 1];
    }
  }

  lemma {:induction false} SegmentEffect(start: Position, segment: string)
    ensures CaretAfter(start, TypeSegment(segment)) == Advance(start, |segment|)
    ensures Typed(TypeSegment(segment)) == segment
  {
    if segment != [] {
      assert TypeSegment(segment)[..0] == [];
      assert Typed(TypeSegment(segment)) == [] + segment;
    }
  }

  lemma {:induction false} CaretAgrees(start: Position, text: string)
    ensures CaretAfter(start, Script(text)) == After(start, text)
    decreases |text|
  {
    var n := BreakIndex(text);
    var caret := Advance(start, n);
    PlainRun(start, text, n);
    SegmentEffect(start, text[..n]);
    CaretOfConcat(start, TypeSegment(text[..n]), ScriptTail(text));
    assert CaretAfter(start, Script(text)) == CaretAfter(caret, ScriptTail(text));
    if n < |text| {
      CaretAgrees(NextParagraph(caret), NextLine(text));
      BreakEffect(caret, NextLine(text));
      TailAtBreak(text[n..], caret, NextLine(text));
    }
  }

  lemma {:induction false} TypedAgrees(start: Position, text: string)
    ensures Typed(Script(text)) == Normalized(text)
    decreases |text|
  {
    var n := BreakIndex(text);
    PlainText(text, n);
    SegmentEffect(start, text[..n]);
    TypedOfConcat(TypeSegment(text[..n]), ScriptTail(text));
    assert Typed(Script(text)) == text[..n] + Typed(ScriptTail(text));
    if n < |text| {
      TypedAgrees(start, NextLine(text));
      BreakEffect(start, NextLine(text));
      TailAtBreak(text[n..], start, NextLine(text));
    }
  }

  /** Inserting a text leaves the caret where the offset scanner puts the end of that text, and what was
      typed is the text with its line breaks normalized: the three scanners split texts alike. */
  lemma {:induction false} InsertionAgrees(start: Position, text: string)
    ensures CaretAfter(start, Script(text)) == PositionAt(start, text, |text|)
    ensures Typed(Script(text)) == Normalized(text)
  {
    assert text[..|text|] == text;
    CaretAgrees(start, text);
    TypedAgrees(start, text);
  }

  lemma {:induction false} BreakEffect(caret: Position, next: string)
    ensures CaretAfter(caret, [BreakParagraph] + Script(next)) == CaretAfter(NextParagraph(caret), Script(next))
    ensures Typed([BreakParagraph] + Script(next)) == "\n" + Typed(Script(next))
  {
    CaretOfConcat(caret, [BreakParagraph], Script(next));
    TypedOfConcat([BreakParagraph], Script(next));
    assert [BreakParagraph][..0] == [];
    assert Typed([BreakParagraph]) == [] + "\n";
  }

  lemma {:induction false} TailAtBreak(tail: string, caret: Position, next: string)
    requires tail != [] && IsBreak(tail[0]) && next == tail[BreakLength(tail)..]
    ensures After(caret, tail) == After(NextParagraph(caret), next)
    ensures Normalized(tail) == "\n" + Normalized(next)
  {
  }

  // ----- order of positions -----

  /** The offset cuts a CR LF pair in two. */
  predicate InsidePair(text: string, offset: nat) {
    0 < offset < |text| && text[offset - 1] == '\r' && text[offset] == '\n'
  }

  /** An offset inside a pair stands for the offset behind the pair. */
  function Canonical(text: string, offset: nat): nat {
    if InsidePair(text, offset) then offset + 1 else offset
  }

  predicate PositionBefore(left: Position, right: Position) {
    if left.list != right.list then left.list < right.list
    else if left.paragraph != right.paragraph then left.paragraph < right.paragraph
    else left.character < right.character
  }

  /** One more character: an LF behind a CR changes nothing, any other break starts a paragraph. */
  lemma {:induction false} AfterOneMore(start: Position, s: string, c: char)
    ensures After(start, s + [c]) ==
            if c == '\n' && s != [] && s[|s| - 1] == '\r' then After(start, s)
            else if IsBreak(c) then NextParagraph(After(start, s))
            else NextCharacter(After(start, s))
    decreases |s|
  {
    var more := s + [c];
    if s == [] {
      assert more == [c] && more[1..] == [];
    } else if s[0] == '\r' && |s| > 1 && s[1] == '\n' {
      AfterOneMore(NextParagraph(start), s[2..], c);
      assert more[2..] == s[2..] + [c];
      LoneFeed(s, c);
    } else if |s| == 1 {
      SingleThenOne(start, s[0], c);
    } else {
      var next := if IsBreak(s[0]) then NextParagraph(start) else NextCharacter(start);
      AfterOneMore(next, s[1..], c);
      assert more[1..] == s[1..] + [c] && more[1] == s[1];
    }
  }

  /** Behind a complete pair with nothing after it, the last character is LF and not CR. */
  lemma {:induction false} LoneFeed(s: string, c: char)
    requires |s| > 1 && s[0] == '\r' && s[1] == '\n'
    ensures |s| == 2 ==> s[|s| - 1] != '\r'
    ensures |s| > 2 ==> s[2..] != [] && s[2..][|s[2..]| - 1] == s[|s| - 1]
  {
  }

  lemma {:induction false} SingleThenOne(start: Position, a: char, c: char)
    ensures After(start, [a] + [c]) ==
            if c == '\n' && a == '\r' then After(start, [a])
            else if IsBreak(c) then NextParagraph(After(start, [a]))
            else NextCharacter(After(start, [a]))
  {
    var s := [a] + [c];
    assert s[1..] == [c] && s[2..] == [];
    OneCharacter(start, a);
    OneCharacter(if IsBreak(a) then NextParagraph(start) else NextCharacter(start), c);
  }

  lemma {:induction false} OneCharacter(start: Position, c: char)
    ensures After(start, [c]) == if IsBreak(c) then NextParagraph(start) else NextCharacter(start)
  {
    assert [c][1..] == [];
  }

  /** Moving on by one offset moves the position forward, except from inside a pair, where it stays. */
  lemma {:induction false} StepForward(start: Position, text: string, offset: nat)
    requires offset < |text|
    ensures
      var here, next := PositionAt(start, text, offset), PositionAt(start, text, offset + 1);
      here.list == next.list == start.list &&
      if InsidePair(text, offset) then next == here else PositionBefore(here, next)
  {
    assert text[..offset + 1] == text[..offset] + [text[offset]];
    AfterOneMore(start, text[..offset], text[offset]);
    SameList(start, text[..offset]);
  }

  lemma {:induction false} SameList(start: Position, s: string)
    ensures After(start, s).list == start.list
    decreases |s|
  {
    if s != [] {
      if s[0] == '\r' && |s| > 1 && s[1] == '\n' { SameList(NextParagraph(start), s[2..]); }
      else if IsBreak(s[0]) { SameList(NextParagraph(start), s[1..]); }
      else { SameList(NextCharacter(start), s[1..]); }
    }
  }

  /** Positions are ordered exactly as the canonical offsets are, so two offsets
      have the same position just when only the inside of a pair separates them. */
  lemma {:induction false} PositionsFollowOffsets(start: Position, text: string, a: nat, b: nat)
    requires a <= b <= |text|
    ensures
      var left, right := PositionAt(start, text, a), PositionAt(start, text, b);
      && left.list == right.list == start.list
      && (Canonical(text, a) < Canonical(text, b) <==> PositionBefore(left, right))
      && (Canonical(text, a) == Canonical(text, b) <==> left == right)
      && !PositionBefore(right, left)
    decreases b - a
  {
    SameList(start, text[..a]);
    if a < b {
      PositionsFollowOffsets(start, text, a, b - 1);
      StepForward(start, text, b - 1);
    }
  }

  datatype Selection = Selection(start: Position, end: Position)

  function SelectionOf(start: Position, text: string, from: nat, to: nat): Selection
    requires from <= |text| && to <= |text|
  {
    Selection(PositionAt(start, text, from), PositionAt(start, text, to))
  }

  predicate SelectionsOverlap(left: Selection, right: Selection) {
    left.start.list == right.start.list &&
    PositionBefore(left.start, right.end) && PositionBefore(right.start, left.end)
  }

  /** Two ranges of a text are selected without overlap exactly when they are apart up to half pairs;
      in particular ranges that do not share a character never overlap. */
  lemma {:induction false} OverlapDecided(start: Position, text: string, a: nat, b: nat, c: nat, d: nat)
    requires a <= b <= |text| && c <= d <= |text|
    ensures SelectionsOverlap(SelectionOf(start, text, a, b), SelectionOf(start, text, c, d)) <==>
            Canonical(text, a) < Canonical(text, d) && Canonical(text, c) < Canonical(text, b)
    ensures b <= c || d <= a ==> !SelectionsOverlap(SelectionOf(start, text, a, b), SelectionOf(start, text, c, d))
  {
    PositionsOrder(start, text, a, d);
    PositionsOrder(start, text, c, b);
    CanonicalMonotone(text, b, c);
    CanonicalMonotone(text, d, a);
  }

  lemma {:induction false} PositionsOrder(start: Position, text: string, a: nat, b: nat)
    requires a <= |text| && b <= |text|
    ensures PositionAt(start, text, a).list == start.list
    ensures PositionBefore(PositionAt(start, text, a), PositionAt(start, text, b)) <==>
            Canonical(text, a) < Canonical(text, b)
  {
    if a <= b {
      PositionsFollowOffsets(start, text, a, b);
    } else {
      PositionsFollowOffsets(start, text, b, a);
      CanonicalMonotone(text, b, a);
    }
  }

  lemma {:induction false} CanonicalMonotone(text: string, a: nat, b: nat)
    ensures a <= b ==> Canonical(text, a) <= Canonical(text, b)
  {
  }
}
