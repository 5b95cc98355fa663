/** The content signature of a checkpoint: one ASCII line, read back with formatted stream extraction. */
module CheckpointSignatures {
  import opened Options
  import opened Numerals

  const MaximumLong: int := 0x7fff_ffff
  const TwoTo64: int := 0x1_0000_0000_0000_0000

  datatype Presence = Unknown | Absent | Present

  datatype Signature = Signature(
    pageCount: int, controlCount: int, controlHash: nat, textHash: nat, textLength: nat, textEmpty: bool,
    presence: Presence, documentHash: nat, documentLength: nat)
  {
    /** The counts are 32-bit signed numbers, the rest are 64-bit unsigned ones. */
    predicate InWidth() {
      -MaximumLong - 1 <= pageCount <= MaximumLong && -MaximumLong - 1 <= controlCount <= MaximumLong &&
      controlHash < TwoTo64 && textHash < TwoTo64 && textLength < TwoTo64 &&
      documentHash < TwoTo64 && documentLength < TwoTo64
    }
  }

  /** What a signature line says; older lines leave the last two facts out. */
  datatype Parsed = Parsed(
    pageCount: int, controlCount: int, controlHash: nat, textHash: nat, textLength: nat, textEmpty: bool,
    presence: Option<Presence>, document: Option<(nat, nat)>)

  function PresenceCode(p: Presence): nat {
    match p
    case Unknown => 0
    case Absent => 1
    case Present => 2
  }

  // ----- the writer -----

  function Signed(n: int): string {
    if n < 0 then "-" + Decimal(-n) else Decimal(n)
  }

  function Field(n: int): string {
    " " + Signed(n)
  }

  function Fields(ns: seq<int>): string {
    if ns == [] then "" else Field(ns[0]) + Fields(ns[1..])
  }

  function Numbers(s: Signature): seq<int> {
    [s.pageCount, s.controlCount, s.controlHash, s.textHash, s.textLength, if s.textEmpty then 1 else 0,
     PresenceCode(s.presence), s.documentHash, s.documentLength]
  }

  function FormatContentSignature(s: Signature): string {
    "SIG" + Fields(Numbers(s))
  }

  // ----- the stream -----

  predicate IsSpace(c: char) {
    c == ' ' || c == '\t' || c == '\n' || c == '\U{b}' || c == '\U{c}' || c == '\r'
  }

  function SkipSpace(s: string): (rest: string)
    ensures |rest| <= |s| && (rest != "" ==> !IsSpace(rest[0]))
  {
    if s != "" && IsSpace(s[0]) then SkipSpace(s[1..]) else s
  }

  /** One extraction: what it read, and what is left. A failure with nothing left is a failure at the end of input. */
  datatype Read<T> = Read(value: Option<T>, rest: string)

  /** A sign, if there is one, and the digits behind it. */
  function ReadDigits(s: string): (r: (bool, string, string))
    ensures AllDigits(r.1)
  {
    var t := SkipSpace(s);
    var negative, signed := t != "" && t[0] == '-', t != "" && (t[0] == '-' || t[0] == '+');
    var u := if signed then t[1..] else t;
    var n := DigitRun(u);
    (negative, u[..n], u[n..])
  }

  function ReadLong(s: string): Read<int> {
    var (negative, digits, rest) := ReadDigits(s);
    var n: int := if negative then -(DigitNumber(digits) as int) else DigitNumber(digits);
    Read(if digits == "" || n < -MaximumLong - 1 || n > MaximumLong then None else Some(n), rest)
  }

  /** Extraction into an unsigned number lets a sign through and wraps. */
  function ReadUnsigned(s: string): Read<nat> {
    var (negative, digits, rest) := ReadDigits(s);
    var n := DigitNumber(digits);
    Read(if digits == "" || n >= TwoTo64 then None else Some(if negative then (TwoTo64 - n) % TwoTo64 else n), rest)
  }

  function WordLength(s: string): (n: nat)
    ensures n <= |s|
  {
    if s == "" || IsSpace(s[0]) then 0 else 1 + WordLength(s[1..])
  }

  // ----- the reader -----

  predicate MinusAfterSpace(raw: string) {
    exists i :: 0 <= i < |raw| && MinusAt(raw, i)
  }

  predicate MinusAt(raw: string, i: nat) {
    0 < i < |raw| && raw[i] == '-' && IsSpace(raw[i - 1])
  }

  /** The marker of an empty text: a line may end before it, and then the length decides. */
  function ReadEmptyMarker(s: string, textLength: nat): Option<(bool, string)> {
    var r := ReadUnsigned(s);
    match r.value
    case Some(marker) => if marker > 1 then None else Some((marker == 1, r.rest))
    case None => if r.rest != "" then None else Some((textLength == 0, ""))
  }

  function PresenceOf(code: nat): Presence
    requires code <= 2
  {
    if code == 0 then Unknown else if code == 1 then Absent else Present
  }

  function ReadPresence(s: string): Option<(Option<Presence>, string)> {
    var r := ReadUnsigned(s);
    match r.value
    case Some(marker) => if marker > 2 then None else Some((Some(PresenceOf(marker)), r.rest))
    case None => if r.rest != "" then None else Some((None, ""))
  }

  function ReadDocument(s: string): Option<(Option<(nat, nat)>, string)> {
    var hash := ReadUnsigned(s);
    match hash.value
    case Some(h) =>
      var length := ReadUnsigned(hash.rest);
      if length.value.None? then None else Some((Some((h, length.value.value)), length.rest))
    case None => if hash.rest != "" then None else Some((None, ""))
  }

  /** The three facts behind the fixed fields, and nothing after them. */
  function ReadTail(s: string, fixed: Parsed): Option<Parsed> {
    var empty := ReadEmptyMarker(s, fixed.textLength);
    if empty.None? then None else
    var presence := ReadPresence(empty.value.1);
    if presence.None? then None else
    var document := ReadDocument(presence.value.1);
    if document.None? || SkipSpace(document.value.1) != "" then None else
    Some(fixed.(textEmpty := empty.value.0, presence := presence.value.0, document := document.value.0))
  }

  /** The prefix and the five fixed fields. */
  function ReadFixed(s: string): Read<Parsed> {
    var word := SkipSpace(s);
    var n := WordLength(word);
    var pages := ReadLong(word[n..]);
    var controls := ReadLong(pages.rest);
    var controlHash := ReadUnsigned(controls.rest);
    var textHash := ReadUnsigned(controlHash.rest);
    var textLength := ReadUnsigned(textHash.rest);
    if n == 0 || pages.value.None? || controls.value.None? || controlHash.value.None? || textHash.value.None? ||
       textLength.value.None? || word[..n] != "SIG" || pages.value.value < 1 || controls.value.value < 0
    then Read(None, textLength.rest)
    else
      Read(Some(Parsed(pages.value.value, controls.value.value, controlHash.value.value, textHash.value.value,
                       textLength.value.value, false, None, None)), textLength.rest)
  }

  function ParseContentSignature(raw: string): Option<Parsed> {
    if MinusAfterSpace(raw) then None
    else
      var fixed := ReadFixed(raw);
      if fixed.value.None? then None else ReadTail(fixed.rest, fixed.value.value)
  }

  // ----- what is written is read back -----

  /** What may follow a number without being taken for a part of it. */
  predicate Ends(rest: string) {
    rest == "" || rest[0] == ' '
  }

  lemma {:induction false} DigitsThenEnd(digits: string, rest: string)
    requires AllDigits(digits) && Ends(rest)
    ensures DigitRun(digits + rest) == |digits|
    ensures (digits + rest)[..|digits|] == digits && (digits + rest)[|digits|..] == rest
  {
    DigitRunIs(digits + rest, |digits|);
  }

  lemma {:induction false} SkipToSigned(n: int, rest: string)
    ensures SkipSpace(Field(n) + rest) == Signed(n) + rest
  {
    var s, t := Field(n) + rest, Signed(n) + rest;
    assert s[1..] == t;
    assert t[0] == '-' || IsDigit(t[0]);
  }

  lemma {:induction false} ReadWritten(n: int, rest: string)
    requires Ends(rest)
    ensures ReadDigits(Field(n) + rest) == (n < 0, Decimal(if n < 0 then -n else n), rest)
  {
    SkipToSigned(n, rest);
    ReadSigned(n < 0, Decimal(if n < 0 then -n else n), rest, Field(n) + rest);
  }

  lemma {:induction false} ReadSigned(negative: bool, digits: string, rest: string, s: string)
    requires Ends(rest) && digits != "" && AllDigits(digits)
    requires SkipSpace(s) == (if negative then "-" + digits else digits) + rest
    ensures ReadDigits(s) == (negative, digits, rest)
  {
    var t := SkipSpace(s);
    DigitsThenEnd(digits, rest);
    if negative {
      assert t[1..] == digits + rest;
    } else {
      assert IsDigit(t[0]) && t == digits + rest;
    }
  }

  lemma {:induction false} LongWritten(n: int, rest: string)
    requires Ends(rest) && -MaximumLong - 1 <= n <= MaximumLong
    ensures ReadLong(Field(n) + rest) == Read(Some(n), rest)
  {
    ReadWritten(n, rest);
    DigitsRoundTrip(if n < 0 then -n else n);
  }

  lemma {:induction false} UnsignedWritten(n: nat, rest: string)
    requires Ends(rest) && n < TwoTo64
    ensures ReadUnsigned(Field(n) + rest) == Read(Some(n), rest)
  {
    ReadWritten(n, rest);
    DigitsRoundTrip(n);
  }

  lemma {:induction false} WordThenEnd(word: string, rest: string)
    requires Ends(rest) && forall i :: 0 <= i < |word| ==> !IsSpace(word[i])
    ensures WordLength(word + rest) == |word|
  {
    if word != "" {
      WordThenEnd(word[1..], rest);
      assert (word + rest)[1..] == word[1..] + rest;
    } else {
      assert word + rest == rest;
    }
  }

  lemma {:induction false} FieldsEnd(ns: seq<int>)
    ensures Ends(Fields(ns))
  {
  }

  lemma {:induction false} FixedWritten(p: int, c: int, h: nat, t: nat, l: nat, rest: seq<int>)
    requires 1 <= p <= MaximumLong && 0 <= c <= MaximumLong && h < TwoTo64 && t < TwoTo64 && l < TwoTo64
    ensures ReadFixed("SIG" + Fields([p, c, h, t, l] + rest)) ==
            Read(Some(Parsed(p, c, h, t, l, false, None, None)), Fields(rest))
  {
    var all := [p, c, h, t, l] + rest;
    FieldsDrop(all, rest);
    var s := "SIG" + Fields(all);
    assert s[3..] == Fields(all) && s[..3] == "SIG";
    FieldsEnd(all);
    WordThenEnd("SIG", Fields(all));
    FieldsEnd(all[1..]);
    FieldsEnd(all[2..]);
    FieldsEnd(all[3..]);
    FieldsEnd(all[4..]);
    FieldsEnd(rest);
    LongWritten(p, Fields(all[1..]));
    LongWritten(c, Fields(all[2..]));
    UnsignedWritten(h, Fields(all[3..]));
    UnsignedWritten(t, Fields(all[4..]));
    UnsignedWritten(l, Fields(rest));
  }

  lemma {:induction false} FieldsDrop(all: seq<int>, rest: seq<int>)
    requires |all| >= 5 && all[5..] == rest
    ensures Fields(all) == Field(all[0]) + Fields(all[1..]) && Fields(all[1..]) == Field(all[1]) + Fields(all[2..])
    ensures Fields(all[2..]) == Field(all[2]) + Fields(all[3..]) && Fields(all[3..]) == Field(all[3]) + Fields(all[4..])
    ensures Fields(all[4..]) == Field(all[4]) + Fields(rest)
  {
    assert all[1..][1..] == all[2..] && all[2..][1..] == all[3..] && all[3..][1..] == all[4..];
    assert all[4..][1..] == rest;
  }

  lemma {:induction false} MarkersWritten(empty: bool, p: Presence, rest: string, textLength: nat)
    requires Ends(rest)
    ensures ReadEmptyMarker(Field(if empty then 1 else 0) + rest, textLength) == Some((empty, rest))
    ensures ReadPresence(Field(PresenceCode(p)) + rest) == Some((Some(p), rest))
  {
    UnsignedWritten(if empty then 1 else 0, rest);
    UnsignedWritten(PresenceCode(p), rest);
  }

  lemma {:induction false} DocumentWritten(h: nat, l: nat)
    requires h < TwoTo64 && l < TwoTo64
    ensures ReadDocument(Field(h) + (Field(l) + "")) == Some((Some((h, l)), ""))
  {
    UnsignedWritten(h, Field(l) + "");
    UnsignedWritten(l, "");
  }

  lemma {:induction false} FourFields(a: int, b: int, c: int, d: int)
    ensures Fields([a, b, c, d]) == Field(a) + (Field(b) + (Field(c) + (Field(d) + "")))
  {
    var one: seq<int>, two: seq<int>, three: seq<int>, four: seq<int> := [d], [c, d], [b, c, d], [a, b, c, d];
    assert one[1..] == [] && two[1..] == one && three[1..] == two && four[1..] == three;
    assert Fields(one) == Field(d) + "";
    assert Fields(two) == Field(c) + Fields(one);
    assert Fields(three) == Field(b) + Fields(two);
  }

  lemma {:induction false} TailWritten(empty: bool, p: Presence, h: nat, l: nat, fixed: Parsed)
    requires h < TwoTo64 && l < TwoTo64
    ensures ReadTail(Fields([if empty then 1 else 0, PresenceCode(p), h, l]), fixed) ==
            Some(fixed.(textEmpty := empty, presence := Some(p), document := Some((h, l))))
  {
    var m: nat := if empty then 1 else 0;
    var all: seq<int> := [m, PresenceCode(p), h, l];
    var document := Field(h) + (Field(l) + "");
    FourFields(m, PresenceCode(p), h, l);
    MarkersWritten(empty, p, Field(PresenceCode(p)) + document, fixed.textLength);
    MarkersWritten(empty, p, document, fixed.textLength);
    DocumentWritten(h, l);
  }

  lemma {:induction false} NoMinus(ns: seq<int>)
    requires forall i :: 0 <= i < |ns| ==> ns[i] >= 0
    ensures forall i :: 0 <= i < |Fields(ns)| ==> Fields(ns)[i] != '-'
  {
    if ns != [] {
      NoMinus(ns[1..]);
    }
  }

  lemma {:induction false} MinusShows(before: string, ns: seq<int>, k: nat) returns (i: nat)
    requires k < |ns| && ns[k] < 0
    ensures MinusAt(before + Fields(ns), i)
    decreases k
  {
    assert before + Fields(ns) == before + Field(ns[0]) + Fields(ns[1..]);
    if k == 0 {
      i := |before| + 1;
      MinusHead(before, ns[0], Fields(ns[1..]));
    } else {
      i := MinusShows(before + Field(ns[0]), ns[1..], k - 1);
    }
  }

  lemma {:induction false} MinusHead(before: string, n: int, after: string)
    requires n < 0
    ensures MinusAt(before + Field(n) + after, |before| + 1)
  {
    var raw := before + Field(n) + after;
    assert raw[|before|] == Field(n)[0] == ' ' && raw[|before| + 1] == Field(n)[1] == '-';
  }

  function AsParsed(s: Signature): Parsed {
    Parsed(s.pageCount, s.controlCount, s.controlHash, s.textHash, s.textLength, s.textEmpty, Some(s.presence),
           Some((s.documentHash, s.documentLength)))
  }

  /** A signature that is written is read back exactly when it counts at least one page and no control below zero. */
  lemma {:induction false} SignatureRoundTrip(s: Signature)
    requires s.InWidth()
    ensures ParseContentSignature(FormatContentSignature(s)) ==
            if s.pageCount >= 1 && s.controlCount >= 0 then Some(AsParsed(s)) else None
  {
    var raw, ns := FormatContentSignature(s), Numbers(s);
    if s.pageCount < 0 {
      var i := MinusShows("SIG", ns, 0);
    } else if s.controlCount < 0 {
      var i := MinusShows("SIG", ns, 1);
    } else {
      NoMinus(ns);
      assert !MinusAfterSpace(raw);
      if s.pageCount >= 1 {
        WrittenIsRead(s);
      } else {
        ZeroPages(s);
      }
    }
  }

  lemma {:induction false} WrittenIsRead(s: Signature)
    requires s.InWidth() && s.pageCount >= 1 && s.controlCount >= 0
    ensures var fixed := ReadFixed(FormatContentSignature(s));
      fixed.value.Some? && ReadTail(fixed.rest, fixed.value.value) == Some(AsParsed(s))
  {
    var rest: seq<int> := [if s.textEmpty then 1 else 0, PresenceCode(s.presence), s.documentHash, s.documentLength];
    assert Numbers(s) == [s.pageCount, s.controlCount, s.controlHash, s.textHash, s.textLength] + rest;
    FixedWritten(s.pageCount, s.controlCount, s.controlHash, s.textHash, s.textLength, rest);
    TailWritten(s.textEmpty, s.presence, s.documentHash, s.documentLength,
                Parsed(s.pageCount, s.controlCount, s.controlHash, s.textHash, s.textLength, false, None, None));
  }

  lemma {:induction false} ZeroPages(s: Signature)
    requires s.InWidth() && s.pageCount == 0
    ensures ReadFixed(FormatContentSignature(s)).value.None?
  {
    var raw, ns := FormatContentSignature(s), Numbers(s);
    assert raw[3..] == Field(0) + Fields(ns[1..]);
    WordThenEnd("SIG", Fields(ns));
    FieldsEnd(ns[1..]);
    LongWritten(0, Fields(ns[1..]));
  }

  // ----- older, shorter lines -----

  /** What a line says whose writer stopped after the fixed fields, or after the marker, or after the presence. */
  function ShorterTail(fixed: Parsed, tail: seq<nat>): Option<Parsed>
    requires |tail| <= 2
  {
    if tail == [] then Some(fixed.(textEmpty := fixed.textLength == 0))
    else if tail[0] > 1 then None
    else if |tail| == 1 then Some(fixed.(textEmpty := tail[0] == 1))
    else if tail[1] > 2 then None
    else
      Some(fixed.(textEmpty := tail[0] == 1,
                  presence := Some(if tail[1] == 0 then Unknown else if tail[1] == 1 then Absent else Present)))
  }

  lemma {:induction false} ShortMarkers(tail: seq<nat>, textLength: nat)
    requires 1 <= |tail| <= 2 && forall i :: 0 <= i < |tail| ==> tail[i] < TwoTo64
    ensures ReadEmptyMarker(Fields(tail), textLength) ==
            if tail[0] > 1 then None else Some((tail[0] == 1, Fields(tail[1..])))
  {
    FieldsEnd(tail[1..]);
    UnsignedWritten(tail[0], Fields(tail[1..]));
  }

  lemma {:induction false} NothingMore(fixed: Parsed)
    ensures ReadEmptyMarker("", fixed.textLength) == Some((fixed.textLength == 0, ""))
    ensures ReadPresence("") == Some((None, "")) && ReadDocument("") == Some((None, ""))
  {
    assert ReadUnsigned("") == Read(None, "");
  }

  lemma {:induction false} ShortTail(tail: seq<nat>, fixed: Parsed)
    requires |tail| <= 2 && forall i :: 0 <= i < |tail| ==> tail[i] < TwoTo64
    requires fixed.presence == None && fixed.document == None
    ensures ReadTail(Fields(tail), fixed) == ShorterTail(fixed, tail)
  {
    NothingMore(fixed);
    if tail != [] {
      ShortMarkers(tail, fixed.textLength);
      if |tail| == 2 { ShortPresence(tail); }
    }
  }

  lemma {:induction false} ShortPresence(tail: seq<nat>)
    requires |tail| == 2 && tail[1] < TwoTo64
    ensures Fields(tail[1..]) == Field(tail[1]) + ""
    ensures ReadPresence(Fields(tail[1..])) == if tail[1] > 2 then None else Some((Some(PresenceOf(tail[1])), ""))
  {
    var one: seq<int> := tail[1..];
    assert one[1..] == [];
    UnsignedWritten(tail[1], "");
  }

  /** Lines of older writers, which end earlier, are read; what they do not say is unknown, except that a text of no
      length is empty. */
  lemma {:induction false} OlderLines(p: int, c: int, h: nat, t: nat, l: nat, tail: seq<nat>)
    requires 1 <= p <= MaximumLong && 0 <= c <= MaximumLong && h < TwoTo64 && t < TwoTo64 && l < TwoTo64
    requires |tail| <= 2 && forall i :: 0 <= i < |tail| ==> tail[i] < TwoTo64
    ensures ParseContentSignature("SIG" + Fields([p, c, h, t, l] + tail)) ==
            ShorterTail(Parsed(p, c, h, t, l, false, None, None), tail)
  {
    NoMinus([p, c, h, t, l] + tail);
    assert !MinusAfterSpace("SIG" + Fields([p, c, h, t, l] + tail));
    FixedWritten(p, c, h, t, l, tail);
    ShortTail(tail, Parsed(p, c, h, t, l, false, None, None));
  }

  // ----- completeness -----

  predicate CompleteFacts(p: Parsed) {
    p.document.Some? && p.document.value.1 > 0 &&
    match p.presence
    case Some(Absent) => p.textEmpty && p.textLength == 0
    case Some(Present) => !p.textEmpty && p.textLength > 0
    case _ => false
  }

  predicate ContentSignatureIsComplete(raw: string) {
    var p := ParseContentSignature(raw);
    p.Some? && CompleteFacts(p.value)
  }

  // ----- matching -----

  datatype Comparison = Comparison(matches: bool, textCompared: bool)

  predicate SameStructure(e: Parsed, a: Parsed, ignoreDocument: bool) {
    e.pageCount == a.pageCount && e.controlCount == a.controlCount && e.controlHash == a.controlHash &&
    (ignoreDocument || e.document == a.document)
  }

  predicate SameText(e: Parsed, a: Parsed) {
    e.textHash == a.textHash && e.textLength == a.textLength
  }

  /** Lines that both say whether there is text compare that first; with an older line the lengths decide. */
  function CompareText(e: Parsed, a: Parsed): Comparison {
    if e.presence.None? || a.presence.None? then
      if a.textLength == 0 then Comparison(e.textLength == 0, false)
      else if e.textLength == 0 then Comparison(true, false)
      else Comparison(SameText(e, a), true)
    else if e.presence != a.presence then Comparison(false, false)
    else
      match e.presence.value
      case Unknown => Comparison(false, false)
      case Absent => Comparison(true, false)
      case Present => if e.textEmpty || a.textEmpty then Comparison(false, false) else Comparison(SameText(e, a), true)
  }

  function CompareParsed(e: Parsed, a: Parsed, ignoreDocument: bool): Comparison {
    if SameStructure(e, a, ignoreDocument) then CompareText(e, a) else Comparison(false, false)
  }

  function ContentSignaturesMatch(expected: string, actual: string, ignoreDocument: bool): Comparison {
    var e, a := ParseContentSignature(expected), ParseContentSignature(actual);
    if e.None? || a.None? then Comparison(expected == actual, expected == actual)
    else CompareParsed(e.value, a.value, ignoreDocument)
  }

  /** What a complete signature is compared by. */
  datatype Key = Key(pageCount: int, controlCount: int, controlHash: nat, document: Option<(nat, nat)>,
                     text: Option<(nat, nat)>)

  function KeyOf(p: Parsed, ignoreDocument: bool): Key {
    Key(p.pageCount, p.controlCount, p.controlHash, if ignoreDocument then None else p.document,
        if p.presence == Some(Present) then Some((p.textHash, p.textLength)) else None)
  }

  /** Complete signatures match exactly when their keys are equal, so matching is an equivalence among them. */
  lemma {:induction false} CompleteMatchIsKeyEquality(expected: string, actual: string, ignoreDocument: bool)
    requires ContentSignatureIsComplete(expected) && ContentSignatureIsComplete(actual)
    ensures ContentSignaturesMatch(expected, actual, ignoreDocument).matches <==>
            KeyOf(ParseContentSignature(expected).value, ignoreDocument) ==
            KeyOf(ParseContentSignature(actual).value, ignoreDocument)
  {
    KeysDecide(ParseContentSignature(expected).value, ParseContentSignature(actual).value, ignoreDocument);
  }

  lemma {:induction false} KeysDecide(e: Parsed, a: Parsed, ignoreDocument: bool)
    requires CompleteFacts(e) && CompleteFacts(a)
    ensures CompareParsed(e, a, ignoreDocument).matches <==> KeyOf(e, ignoreDocument) == KeyOf(a, ignoreDocument)
  {
  }

  ghost predicate Matches(x: string, y: string, ignoreDocument: bool) {
    ContentSignaturesMatch(x, y, ignoreDocument).matches
  }

  lemma {:induction false} CompleteMatchIsEquivalence(x: string, y: string, z: string, ignoreDocument: bool)
    requires ContentSignatureIsComplete(x) && ContentSignatureIsComplete(y) && ContentSignatureIsComplete(z)
    ensures Matches(x, x, ignoreDocument)
    ensures Matches(x, y, ignoreDocument) <==> Matches(y, x, ignoreDocument)
    ensures Matches(x, y, ignoreDocument) && Matches(y, z, ignoreDocument) ==> Matches(x, z, ignoreDocument)
  {
    CompleteMatchIsKeyEquality(x, x, ignoreDocument);
    CompleteMatchIsKeyEquality(x, y, ignoreDocument);
    CompleteMatchIsKeyEquality(y, x, ignoreDocument);
    CompleteMatchIsKeyEquality(y, z, ignoreDocument);
    CompleteMatchIsKeyEquality(x, z, ignoreDocument);
  }

  /** Two complete signatures match each other exactly when any signature that matches the one matches the other. */
  lemma {:induction false} MatchesAgree(x: string, y: string, read: string)
    requires ContentSignatureIsComplete(x) && ContentSignatureIsComplete(y) && Matches(x, read, false)
    ensures Matches(x, y, false) <==> Matches(y, read, false)
  {
    var p := ParseContentSignature(read);
    DocumentNeedsPresence(read, p);
    MatchIsCompared(x, read, p);
    MatchIsCompared(x, y, ParseContentSignature(y));
    MatchIsCompared(y, read, p);
    AgreeOnRead(ParseContentSignature(x).value, ParseContentSignature(y).value, p.value);
  }

  /** Against a line that can be read, only one that can be read matches, and then by its facts. */
  lemma {:induction false} MatchIsCompared(x: string, y: string, q: Option<Parsed>)
    requires ParseContentSignature(x).Some? && q == ParseContentSignature(y)
    ensures Matches(x, y, false) <==> q.Some? && CompareParsed(ParseContentSignature(x).value, q.value, false).matches
  {
  }

  /** A line that names the document also says whether there is text. */
  lemma {:induction false} DocumentNeedsPresence(raw: string, p: Option<Parsed>)
    requires p == ParseContentSignature(raw)
    ensures p.Some? && p.value.document.Some? ==> p.value.presence.Some?
  {
    NothingToRead();
    if p.Some? {
      TailNeedsPresence(ReadFixed(raw).rest, ReadFixed(raw).value.value);
    }
  }

  lemma {:induction false} TailNeedsPresence(s: string, fixed: Parsed)
    ensures var p := ReadTail(s, fixed); p.Some? && p.value.document.Some? ==> p.value.presence.Some?
  {
    NothingToRead();
  }

  lemma {:induction false} NothingToRead()
    ensures ReadDocument("") == Some((None, ""))
  {
  }

  lemma {:induction false} AgreeOnRead(x: Parsed, y: Parsed, read: Parsed)
    requires CompleteFacts(x) && CompleteFacts(y) && (read.document.Some? ==> read.presence.Some?)
    requires CompareParsed(x, read, false).matches
    ensures CompareParsed(x, y, false).matches <==> CompareParsed(y, read, false).matches
  {
  }

  /** A written signature is complete exactly when it names its text as there or not there, consistently. */
  lemma {:induction false} WrittenIsComplete(s: Signature)
    requires s.InWidth()
    ensures ContentSignatureIsComplete(FormatContentSignature(s)) <==>
            s.pageCount >= 1 && s.controlCount >= 0 && s.documentLength > 0 && s.presence != Unknown &&
            s.textEmpty == (s.textLength == 0) && s.textEmpty == (s.presence == Absent)
  {
    SignatureRoundTrip(s);
    var raw := FormatContentSignature(s);
    CompleteByFacts(raw, ParseContentSignature(raw));
    if s.pageCount >= 1 && s.controlCount >= 0 {
      WrittenFacts(s);
    }
  }

  lemma {:induction false} CompleteByFacts(raw: string, p: Option<Parsed>)
    requires p == ParseContentSignature(raw)
    ensures ContentSignatureIsComplete(raw) <==> p.Some? && CompleteFacts(p.value)
  {
  }

  lemma {:induction false} WrittenFacts(s: Signature)
    ensures CompleteFacts(AsParsed(s)) <==>
            s.documentLength > 0 && s.presence != Unknown && s.textEmpty == (s.textLength == 0) &&
            s.textEmpty == (s.presence == Absent)
  {
  }

  // ----- older lines -----

  /** Exactly one of two lines, at least one of them older, has text. */
  predicate OneSidedText(e: Parsed, a: Parsed) {
    (e.presence.None? || a.presence.None?) && (e.textLength == 0) != (a.textLength == 0)
  }

  /** Off the complete signatures, matching depends on the order exactly when an older line meets one-sided text. */
  lemma {:induction false} WhenOrderMatters(x: string, y: string, ignoreDocument: bool)
    ensures var e, a := ParseContentSignature(x), ParseContentSignature(y);
      Matches(x, y, ignoreDocument) != Matches(y, x, ignoreDocument) <==>
      e.Some? && a.Some? && SameStructure(e.value, a.value, ignoreDocument) && OneSidedText(e.value, a.value)
  {
    var e, a := ParseContentSignature(x), ParseContentSignature(y);
    if e.Some? && a.Some? {
      OrderOfText(e.value, a.value, ignoreDocument);
    }
  }

  lemma {:induction false} OrderOfText(e: Parsed, a: Parsed, ignoreDocument: bool)
    ensures CompareParsed(e, a, ignoreDocument).matches != CompareParsed(a, e, ignoreDocument).matches <==>
            SameStructure(e, a, ignoreDocument) && OneSidedText(e, a)
  {
  }

  /** A line that can be read fails to match itself exactly when it leaves its text unknown or contradicts itself. */
  lemma {:induction false} WhenSelfMatches(x: string, ignoreDocument: bool)
    ensures Matches(x, x, ignoreDocument) <==>
            ParseContentSignature(x).None? || KnowsItsText(ParseContentSignature(x).value)
  {
    if ParseContentSignature(x).Some? {
      SelfDecides(ParseContentSignature(x).value, ignoreDocument);
    }
  }

  predicate KnowsItsText(p: Parsed) {
    p.presence != Some(Unknown) && !(p.presence == Some(Present) && p.textEmpty)
  }

  lemma {:induction false} SelfDecides(p: Parsed, ignoreDocument: bool)
    ensures CompareParsed(p, p, ignoreDocument).matches <==> KnowsItsText(p)
  {
    assert SameStructure(p, p, ignoreDocument);
  }
}
