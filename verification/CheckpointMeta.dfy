/** The sidecar of a document-file checkpoint: a magic line and lines of facts. Bytes are characters below 256. */
module CheckpointMeta {
  import opened Options
  import opened Numerals
  import opened EncodedBlocks

  const MetaMagic := "GSG_HWP_DOCUMENT_FILE_V1\n"
  const MetaMagicLength := 25
  const MaximumMetaBytes := 4096
  const DefaultFormat := "HWP"
  const MaximumLong := 0x7fff_ffff

  // ----- the writer -----

  function Written(format: string, signature: string): Option<string> {
    if AllText(format) && AllText(signature) then
      Some(MetaMagic + "FMT " + format + "\n" + if signature == "" then "" else "SIG " + signature + "\n")
    else None
  }

  /** Writes the sidecar into a new file: it is there exactly when its values are text and the write was complete. */
  method WriteCheckpointMeta(format: string, signature: string, w: Writing) returns (ok: bool, file: Option<string>)
    ensures ok <==> Written(format, signature).Some? && w.created && w.complete
    ensures ok ==> file == Written(format, signature)
    ensures Written(format, signature).None? || !w.created ==> file == None
  {
    var text := MetaText(format, signature);
    if text.None? {
      return false, None;
    }
    var created;
    ok, created, file := WriteExclusive(text.value, w);
  }

  /** The bytes of a sidecar. */
  method MetaText(format: string, signature: string) returns (text: Option<string>)
    ensures text == Written(format, signature)
  {
    var bytes := MetaMagic + "FMT ";
    var ok := AppendText(format);
    if !ok {
      return None;
    }
    bytes := bytes + format + "\n";
    if signature != "" {
      ok := AppendText(signature);
      if !ok {
        return None;
      }
      bytes := bytes + ("SIG " + signature + "\n");
    }
    assert bytes == MetaMagic + "FMT " + format + "\n" + if signature == "" then "" else "SIG " + signature + "\n";
    text := Some(bytes);
  }

  method AppendText(s: string) returns (ok: bool)
    ensures ok <==> AllText(s)
  {
    for i := 0 to |s|
      invariant AllText(s[..i])
    {
      if !IsText(s[i]) {
        return false;
      }
    }
    assert s[..|s|] == s;
    ok := true;
  }

  // ----- lines -----

  /** What one line says. A value that holds a byte which is not text counts as empty. */
  datatype Line =
    | FormatLine(value: string)
    | SignatureLine(value: string)
    | OriginLine(value: string)
    | HistoryLine
    | OriginPagesLine(pages: Option<nat>)
    | MalformedLine
    | OtherLine

  predicate HasPrefix(line: string, prefix: string) {
    prefix <= line
  }

  function ValueFrom(line: string, start: nat): string
    requires start <= |line|
  {
    if AllText(line[start..]) then line[start..] else ""
  }

  function PositiveLong(digits: string): Option<nat> {
    if digits != "" && AllDigits(digits) && 1 <= DigitNumber(digits) <= MaximumLong
    then Some(DigitNumber(digits)) else None
  }

  function Classify(line: string): Line {
    if HasPrefix(line, "FMT ") then FormatLine(ValueFrom(line, 4))
    else if HasPrefix(line, "SIG ") then SignatureLine(ValueFrom(line, 4))
    else if HasPrefix(line, "ORIGIN ") then OriginLine(ValueFrom(line, 7))
    else if line == "HISTORY P1_SINGLE_TEXT_UNDO" then HistoryLine
    else if HasPrefix(line, "ORIGIN_PAGES ") then OriginPagesLine(PositiveLong(line[13..]))
    else if HasPrefix(line, "HISTORY") || HasPrefix(line, "ORIGIN") then MalformedLine
    else OtherLine
  }

  /** Accumulating digits, with the bound checked at each of them. */
  method ParsePositiveLong(digits: string) returns (value: Option<nat>)
    ensures value == PositiveLong(digits)
  {
    if digits == "" {
      return None;
    }
    var parsed := 0;
    for i := 0 to |digits|
      invariant AllDigits(digits[..i]) && parsed == DigitNumber(digits[..i]) <= MaximumLong
    {
      if !IsDigit(digits[i]) {
        return None;
      }
      assert digits[..i + 1][..i] == digits[..i];
      parsed := parsed * 10 + (digits[i] - '0') as int;
      if parsed > MaximumLong {
        NumberGrows(digits, i + 1);
        return None;
      }
    }
    assert digits[..|digits|] == digits;
    value := if parsed == 0 then None else Some(parsed);
  }

  lemma {:induction false} NumberGrows(digits: string, k: nat)
    requires k <= |digits| && AllDigits(digits[..k])
    ensures AllDigits(digits) ==> DigitNumber(digits[..k]) <= DigitNumber(digits)
    decreases |digits|
  {
    if AllDigits(digits) {
      if k < |digits| {
        assert digits[..|digits| - 1][..k] == digits[..k];
        NumberGrows(digits[..|digits| - 1], k);
      } else {
        assert digits[..k] == digits;
      }
    }
  }

  // ----- the reader -----

  datatype Meta = Meta(
    format: string, signature: string, origin: string, originPages: Option<nat>,
    malformed: bool, sawHistory: bool, sawSignature: bool, sawOrigin: bool, sawOriginPages: bool)

  const Blank := Meta(DefaultFormat, "", "", None, false, false, false, false, false)

  function Apply(m: Meta, line: Line): Meta {
    match line
    case FormatLine(value) => if value == "" then m else m.(format := value)
    case SignatureLine(value) =>
      if value == "" || m.sawSignature then m.(malformed := true) else m.(signature := value, sawSignature := true)
    case OriginLine(value) =>
      if value == "" || m.sawOrigin then m.(malformed := true) else m.(origin := value, sawOrigin := true)
    case HistoryLine => m.(malformed := m.malformed || m.sawHistory, sawHistory := true)
    case OriginPagesLine(pages) =>
      if m.sawOriginPages || pages.None? then m.(malformed := true)
      else m.(originPages := pages, sawOriginPages := true)
    case MalformedLine => m.(malformed := true)
    case OtherLine => m
  }

  /** The lines of `s` from `from` on; a final line feed does not start another line. */
  function Lines(s: string, from: nat): seq<string>
    requires from <= |s|
    decreases |s| - from
  {
    if from == |s| then []
    else
      var end := LineEnd(s, from);
      [s[from..end]] + if end == |s| then [] else Lines(s, end + 1)
  }

  function Facts(lines: seq<string>): seq<Line> {
    if lines == [] then [] else [Classify(lines[0])] + Facts(lines[1..])
  }

  lemma {:induction false} FactsCons(line: string, rest: seq<string>)
    ensures Facts([line] + rest) == [Classify(line)] + Facts(rest)
  {
    assert ([line] + rest)[1..] == rest;
  }

  function ApplyAll(m: Meta, lines: seq<Line>): Meta
    decreases |lines|
  {
    if lines == [] then m else ApplyAll(Apply(m, lines[0]), lines[1..])
  }

  /** What a reader that looks at the first 4096 bytes of the sidecar takes from it. */
  function ReadMeta(file: string): Meta {
    var text := if |file| <= MaximumMetaBytes then file else file[..MaximumMetaBytes];
    if HasPrefix(text, MetaMagic) then ApplyAll(Blank, Facts(Lines(text, MetaMagicLength))) else Blank
  }

  predicate SingleTextUndo(m: Meta) {
    !m.malformed && m.sawHistory && m.sawSignature && m.sawOrigin && m.sawOriginPages
  }

  lemma {:induction false} ApplyCons(m: Meta, line: Line, rest: seq<Line>)
    ensures ApplyAll(m, [line] + rest) == ApplyAll(Apply(m, line), rest)
  {
    assert ([line] + rest)[1..] == rest;
  }

  /** What is left to read turns `m` into `whole`. */
  ghost predicate Reading(m: Meta, text: string, cursor: nat, whole: Meta)
    requires cursor <= |text|
  {
    ApplyAll(m, Facts(Lines(text, cursor))) == whole
  }

  lemma {:induction false} ReadLine(m: Meta, text: string, cursor: nat, line: string, whole: Meta)
    requires cursor < |text| && line == text[cursor..LineEnd(text, cursor)] && Reading(m, text, cursor, whole)
    ensures var end := LineEnd(text, cursor);
      Reading(Apply(m, Classify(line)), text, if end == |text| then |text| else end + 1, whole)
  {
    var end := LineEnd(text, cursor);
    var rest := FirstLine(text, cursor, line, if end == |text| then |text| else end + 1);
    ApplyLine(m, line, rest);
  }

  lemma {:induction false} FirstLine(text: string, cursor: nat, line: string, behind: nat) returns (rest: seq<string>)
    requires cursor < |text| && line == text[cursor..LineEnd(text, cursor)]
    requires behind == if LineEnd(text, cursor) == |text| then |text| else LineEnd(text, cursor) + 1
    ensures rest == Lines(text, behind) && Lines(text, cursor) == [line] + rest
  {
    rest := Lines(text, behind);
  }

  lemma {:induction false} ApplyLine(m: Meta, line: string, rest: seq<string>)
    ensures ApplyAll(m, Facts([line] + rest)) == ApplyAll(Apply(m, Classify(line)), Facts(rest))
  {
    FactsCons(line, rest);
    ApplyCons(m, Classify(line), Facts(rest));
  }

  lemma {:induction false} ReadToEnd(m: Meta, text: string, whole: Meta)
    requires Reading(m, text, |text|, whole)
    ensures m == whole
  {
  }

  lemma {:induction false} StartReading(text: string)
    requires MetaMagicLength <= |text|
    ensures Reading(Blank, text, MetaMagicLength, ApplyAll(Blank, Facts(Lines(text, MetaMagicLength))))
  {
  }

  /** Reads one line and goes behind its line feed. */
  method ReadOneLine(m: Meta, text: string, cursor: nat, ghost whole: Meta) returns (next: Meta, behind: nat)
    requires cursor < |text| && Reading(m, text, cursor, whole)
    ensures cursor < behind <= |text| && Reading(next, text, behind, whole)
  {
    var end := LineEnd(text, cursor);
    var line := text[cursor..end];
    ReadLine(m, text, cursor, line, whole);
    next := Apply(m, Classify(line));
    behind := if end == |text| then |text| else end + 1;
  }

  method ReadLines(text: string, ghost whole: Meta) returns (m: Meta)
    requires MetaMagicLength <= |text| && Reading(Blank, text, MetaMagicLength, whole)
    ensures m == whole
  {
    m := Blank;
    var cursor := MetaMagicLength;
    while cursor < |text|
      invariant cursor <= |text| && Reading(m, text, cursor, whole)
    {
      m, cursor := ReadOneLine(m, text, cursor, whole);
    }
    ReadToEnd(m, text, whole);
  }

  method ReadCheckpointMeta(file: string) returns (m: Meta, undo: bool)
    ensures m == ReadMeta(file) && undo == SingleTextUndo(m)
  {
    var text := if |file| <= MaximumMetaBytes then file else file[..MaximumMetaBytes];
    if !HasPrefix(text, MetaMagic) {
      return Blank, false;
    }
    StartReading(text);
    m := ReadLines(text, ReadMeta(file));
    undo := SingleTextUndo(m);
  }

  // ----- what is written is read back -----

  predicate NoFeed(s: string) {
    forall i :: 0 <= i < |s| ==> s[i] != '\n'
  }

  lemma {:induction false} LineEndIs(s: string, from: nat, end: nat)
    requires from <= end <= |s| && NoFeed(s[from..end]) && (end < |s| ==> s[end] == '\n')
    ensures LineEnd(s, from) == end
  {
    assert forall i :: from <= i < end ==> s[i] == s[from..end][i - from];
  }

  lemma {:induction false} LastLine(s: string, from: nat, line: string)
    requires from < |s| && s[from..] == line && NoFeed(line)
    ensures Lines(s, from) == [line]
  {
    assert s[from..|s|] == line;
    LineEndIs(s, from, |s|);
  }

  lemma {:induction false} LinesStep(s: string, from: nat, end: nat)
    requires from <= end < |s| && LineEnd(s, from) == end
    ensures Lines(s, from) == [s[from..end]] + Lines(s, end + 1)
  {
  }

  lemma {:induction false} LineThen(s: string, from: nat, line: string, rest: string) returns (next: nat)
    requires from <= |s| && s[from..] == line + "\n" + rest && NoFeed(line)
    ensures next == from + |line| + 1 <= |s| && s[next..] == rest
    ensures Lines(s, from) == [line] + Lines(s, next)
  {
    next := SplitAt(s, from, line, rest);
    NextOf(s, from, next - 1, line, next);
  }

  lemma {:induction false} NextOf(s: string, from: nat, end: nat, line: string, next: nat)
    requires from <= end < |s| && s[from..end] == line && NoFeed(line) && s[end] == '\n' && next == end + 1
    ensures Lines(s, from) == [line] + Lines(s, next)
  {
    LineEndIs(s, from, end);
    LinesStep(s, from, end);
  }

  lemma {:induction false} SplitAt(s: string, from: nat, line: string, rest: string) returns (next: nat)
    requires from <= |s| && s[from..] == line + "\n" + rest
    ensures next == from + |line| + 1 <= |s|
    ensures s[from..next - 1] == line && s[next - 1] == '\n' && s[next..] == rest
  {
    next := from + |line| + 1;
    assert s[next - 1] == s[from..][|line|] == '\n';
    assert s[from..next - 1] == s[from..][..|line|] == line;
    assert s[next..] == s[from..][|line| + 1..] == rest;
  }

  lemma {:induction false} ClassifyWritten(v: string)
    requires AllText(v)
    ensures Classify("FMT " + v) == FormatLine(v) && Classify("SIG " + v) == SignatureLine(v)
  {
    assert ("FMT " + v)[4..] == v && ("SIG " + v)[4..] == v;
    assert ("SIG " + v)[0] == 'S';
  }

  /** What the second line, or the part of it that is left, contributes. */
  lemma {:induction false} CutSignature(m: Meta, signature: string, k: nat)
    requires AllText(signature) && signature != "" && k <= 4 + |signature| && !m.sawSignature && m.signature == ""
    ensures var n := Apply(m, Classify(("SIG " + signature)[..k]));
      n.format == m.format || k < 4
    ensures Apply(m, Classify(("SIG " + signature)[..k])).signature == signature <==> k == 4 + |signature|
  {
    var line := ("SIG " + signature)[..k];
    if k >= 4 {
      assert line == "SIG " + signature[..k - 4];
      ClassifyWritten(signature[..k - 4]);
    } else {
      assert !HasPrefix(line, "SIG ");
    }
  }

  /** The first 4096 bytes of a sidecar, of which the last may be missing. */
  function Seen(file: string): string {
    if |file| <= MaximumMetaBytes then file else file[..MaximumMetaBytes]
  }

  ghost predicate ReadsBack(file: string, format: string, signature: string) {
    ReadMeta(file).format == format && ReadMeta(file).signature == signature
  }

  /** The value of a line never holds a line feed. */
  lemma {:induction false} ClassifyNoFeed(line: string)
    requires NoFeed(line)
    ensures var l := Classify(line);
      (l.FormatLine? ==> NoFeed(l.value)) && (l.SignatureLine? ==> NoFeed(l.value))
  {
  }

  predicate Plain(m: Meta) {
    NoFeed(m.format) && NoFeed(m.signature) && m.format != ""
  }

  lemma {:induction false} LinesHaveNoFeed(s: string, from: nat)
    requires from <= |s|
    ensures forall k :: 0 <= k < |Lines(s, from)| ==> NoFeed(Lines(s, from)[k])
    decreases |s| - from
  {
    if from < |s| {
      var end := LineEnd(s, from);
      assert NoFeed(s[from..end]);
      if end < |s| {
        LinesHaveNoFeed(s, end + 1);
      }
    }
  }

  lemma {:induction false} PlainFromLines(m: Meta, lines: seq<string>)
    requires Plain(m) && forall k :: 0 <= k < |lines| ==> NoFeed(lines[k])
    ensures Plain(ApplyAll(m, Facts(lines)))
    decreases |lines|
  {
    if lines != [] {
      var line := Classify(lines[0]);
      ClassifyNoFeed(lines[0]);
      PlainStep(m, line);
      ApplyCons(m, line, Facts(lines[1..]));
      PlainFromLines(Apply(m, line), lines[1..]);
    }
  }

  lemma {:induction false} PlainStep(m: Meta, l: Line)
    requires Plain(m) && (l.FormatLine? ==> NoFeed(l.value)) && (l.SignatureLine? ==> NoFeed(l.value))
    ensures Plain(Apply(m, l))
  {
  }

  lemma {:induction false} ReadBackIsPlain(file: string, format: string, signature: string)
    requires ReadsBack(file, format, signature)
    ensures format != "" && NoFeed(format) && NoFeed(signature)
  {
    if HasPrefix(Seen(file), MetaMagic) {
      LinesHaveNoFeed(Seen(file), MetaMagicLength);
      PlainFromLines(Blank, Lines(Seen(file), MetaMagicLength));
    }
  }

  lemma {:induction false} CutBehindMagic(file: string, body: string, text: string, k: nat)
    requires file == MetaMagic + body && text <= file && |text| == MetaMagicLength + k
    ensures k <= |body| && text[..MetaMagicLength] == MetaMagic && text[MetaMagicLength..] == body[..k]
  {
    assert text == file[..|text|];
  }

  lemma {:induction false} CutInFormat(format: string, second: string, k: nat)
    requires 4 < k <= 4 + |format|
    ensures ("FMT " + format + "\n" + second)[..k] == "FMT " + format[..k - 4]
  {
  }

  /** The sidecar of a format and a signature without line feeds, cut off anywhere behind its magic line. */
  lemma {:induction false} CutFile(format: string, signature: string, text: string)
    requires AllText(format) && format != "" && NoFeed(format) && AllText(signature) && NoFeed(signature)
    requires MetaMagicLength + 4 < |text| && text <= Written(format, signature).value
    ensures var m := ApplyAll(Blank, Facts(Lines(text, MetaMagicLength)));
      m.format == format && m.signature == signature <==> |Written(format, signature).value| - 1 <= |text|
    ensures HasPrefix(text, MetaMagic)
  {
    var file := Written(format, signature).value;
    var line, second := "FMT " + format, if signature == "" then "" else "SIG " + signature + "\n";
    assert file == MetaMagic + (line + "\n" + second);
    var k := |text| - MetaMagicLength;
    CutBehindMagic(file, line + "\n" + second, text, k);
    if k <= |line| {
      CutInFormat(format, second, k);
      LastLine(text, MetaMagicLength, "FMT " + format[..k - 4]);
      ClassifyWritten(format[..k - 4]);
      OneFact(Blank, "FMT " + format[..k - 4]);
    } else {
      CutSecondLine(format, signature, text, second[..k - |line| - 1]);
    }
  }

  lemma {:induction false} OneFact(m: Meta, line: string)
    ensures ApplyAll(m, Facts([line])) == Apply(m, Classify(line))
  {
    FactsCons(line, []);
    ApplyCons(m, Classify(line), []);
    assert [line] + [] == [line];
  }

  /** The first line is whole, and `rest` is what is left of the second. */
  lemma {:induction false} CutSecondLine(format: string, signature: string, text: string, rest: string)
    requires AllText(format) && format != "" && NoFeed(format) && AllText(signature) && NoFeed(signature)
    requires rest <= if signature == "" then "" else "SIG " + signature + "\n"
    requires MetaMagicLength <= |text| && text[MetaMagicLength..] == "FMT " + format + "\n" + rest
    ensures var m := ApplyAll(Blank, Facts(Lines(text, MetaMagicLength)));
      m.format == format && m.signature == signature <==> signature == "" || |rest| >= 4 + |signature|
  {
    var line := "FMT " + format;
    var at := LineThen(text, MetaMagicLength, line, rest);
    FirstFact(format, Lines(text, at));
    var m := Blank.(format := format);
    if rest == "" {
      assert ApplyAll(m, Facts(Lines(text, at))) == m;
    } else {
      SecondLine(m, signature, text, at, rest);
    }
  }

  lemma {:induction false} FirstFact(format: string, rest: seq<string>)
    requires AllText(format) && format != ""
    ensures ApplyAll(Blank, Facts(["FMT " + format] + rest)) == ApplyAll(Blank.(format := format), Facts(rest))
  {
    ClassifyWritten(format);
    FactsCons("FMT " + format, rest);
    ApplyCons(Blank, FormatLine(format), Facts(rest));
  }

  lemma {:induction false} SecondLine(m: Meta, signature: string, text: string, at: nat, rest: string)
    requires signature != "" && AllText(signature) && NoFeed(signature) && !m.sawSignature && m.signature == ""
    requires at <= |text| && text[at..] == rest && rest != "" && rest <= "SIG " + signature + "\n"
    ensures var n := ApplyAll(m, Facts(Lines(text, at)));
      (n.signature == signature <==> |rest| >= 4 + |signature|) && (|rest| >= 4 + |signature| ==> n.format == m.format)
  {
    var k := if |rest| <= 4 + |signature| then |rest| else 4 + |signature|;
    var line := ("SIG " + signature)[..k];
    if |rest| <= 4 + |signature| {
      assert rest == line;
      LastLine(text, at, line);
    } else {
      assert rest == line + "\n" + "";
      var end := LineThen(text, at, line, "");
      assert Lines(text, at) == [line];
    }
    OneFact(m, line);
    CutSignature(m, signature, k);
  }

  /**
   * A sidecar that is written is read back as it was exactly when its format is not empty, neither value holds a
   * line feed, and nothing but the last line feed lies behind the first 4096 bytes.
   */
  lemma {:induction false} MetaRoundTrip(format: string, signature: string)
    requires Written(format, signature).Some?
    ensures ReadsBack(Written(format, signature).value, format, signature) <==>
            format != "" && NoFeed(format) && NoFeed(signature) &&
            |Written(format, signature).value| <= MaximumMetaBytes + 1
  {
    var file := Written(format, signature).value;
    if ReadsBack(file, format, signature) {
      ReadBackIsPlain(file, format, signature);
    }
    if format != "" && NoFeed(format) && NoFeed(signature) {
      CutFile(format, signature, Seen(file));
    }
  }

  // ----- when a single engine Undo is authorised -----

  /** A fact line that can be used. */
  predicate Usable(line: Line) {
    match line
    case SignatureLine(value) => value != ""
    case OriginLine(value) => value != ""
    case OriginPagesLine(pages) => pages.Some?
    case MalformedLine => false
    case _ => true
  }

  datatype Fact = History | Signature | Origin | OriginPages | Unusable

  predicate Says(line: Line, fact: Fact) {
    match fact
    case History => line.HistoryLine?
    case Signature => line.SignatureLine?
    case Origin => line.OriginLine?
    case OriginPages => line.OriginPagesLine?
    case Unusable => !Usable(line)
  }

  function Count(lines: seq<Line>, fact: Fact): nat {
    if lines == [] then 0 else One(Says(lines[0], fact)) + Count(lines[1..], fact)
  }

  function One(seen: bool): nat { if seen then 1 else 0 }

  /** The flags so far and the lines to come make up exactly one of each fact, and nothing unusable. */
  predicate Needs(m: Meta, unusable: nat, history: nat, signature: nat, origin: nat, pages: nat) {
    !m.malformed && unusable == 0 && One(m.sawHistory) + history == 1 && One(m.sawSignature) + signature == 1 &&
    One(m.sawOrigin) + origin == 1 && One(m.sawOriginPages) + pages == 1
  }

  lemma {:induction false} NeedsStep(m: Meta, l: Line, unusable: nat, history: nat, signature: nat, origin: nat,
                                     pages: nat)
    ensures Needs(m, unusable + One(!Usable(l)), history + One(l.HistoryLine?), signature + One(l.SignatureLine?),
                  origin + One(l.OriginLine?), pages + One(l.OriginPagesLine?)) <==>
            Needs(Apply(m, l), unusable, history, signature, origin, pages)
  {
  }

  lemma {:induction false} UndoFrom(m: Meta, lines: seq<Line>)
    ensures SingleTextUndo(ApplyAll(m, lines)) <==>
            Needs(m, Count(lines, Unusable), Count(lines, History), Count(lines, Signature),
                  Count(lines, Origin), Count(lines, OriginPages))
    decreases |lines|
  {
    if lines != [] {
      var rest := lines[1..];
      UndoFrom(Apply(m, lines[0]), rest);
      NeedsStep(m, lines[0], Count(rest, Unusable), Count(rest, History), Count(rest, Signature),
                Count(rest, Origin), Count(rest, OriginPages));
    }
  }

  /** One history line, one usable line each of the three facts an Undo needs, and nothing malformed. */
  predicate UndoLines(lines: seq<Line>) {
    Count(lines, Unusable) == 0 && Count(lines, History) == 1 && Count(lines, Signature) == 1 &&
    Count(lines, Origin) == 1 && Count(lines, OriginPages) == 1
  }

  lemma {:induction false} NeedsOfUnseen(m: Meta, unusable: nat, history: nat, signature: nat, origin: nat, pages: nat)
    requires !m.malformed && !m.sawHistory && !m.sawSignature && !m.sawOrigin && !m.sawOriginPages
    ensures Needs(m, unusable, history, signature, origin, pages) <==>
            unusable == 0 && history == 1 && signature == 1 && origin == 1 && pages == 1
  {
  }

  lemma {:induction false} UndoFromUnseen(m: Meta, lines: seq<Line>)
    requires !m.malformed && !m.sawHistory && !m.sawSignature && !m.sawOrigin && !m.sawOriginPages
    ensures SingleTextUndo(ApplyAll(m, lines)) <==> UndoLines(lines)
  {
    UndoFrom(m, lines);
    NeedsOfUnseen(m, Count(lines, Unusable), Count(lines, History), Count(lines, Signature), Count(lines, Origin),
                  Count(lines, OriginPages));
  }

  /** A sidecar authorises a single engine Undo exactly when its lines are those an Undo needs. */
  lemma {:induction false} WhenUndoIsAuthorised(file: string)
    ensures SingleTextUndo(ReadMeta(file)) <==>
            HasPrefix(Seen(file), MetaMagic) && UndoLines(Facts(Lines(Seen(file), MetaMagicLength)))
  {
    if HasPrefix(Seen(file), MetaMagic) {
      UndoFromUnseen(Blank, Facts(Lines(Seen(file), MetaMagicLength)));
    }
  }
}
