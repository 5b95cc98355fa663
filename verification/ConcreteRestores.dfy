/** Requests and signature lines as the engine writes them, on which a restore loses something. */
module ConcreteRestores {
  import opened Options
  import opened CheckpointSignatures
  import opened EncodedBlocks
  import CheckpointMeta
  import opened RestoreWorld
  import opened CheckpointRestore
  import opened RestoreSteps
  import opened RestoreResults
  import opened RestorePromises
  import opened StubbornEngine

  // ----- two signatures -----

  /** A document of one page and one character, told apart by its hash. */
  function Small(hash: nat): Signature {
    Signature(1, 0, 0, 1, 1, false, Present, hash, 1)
  }

  function Line(hash: nat): string {
    FormatContentSignature(Small(hash))
  }

  lemma {:induction false} SmallFields(ns: seq<int>)
    requires forall i :: 0 <= i < |ns| ==> 0 <= ns[i] < 10
    ensures LineSafe(Fields(ns)) && |Fields(ns)| == 2 * |ns|
  {
    if ns != [] {
      SmallFields(ns[1..]);
      assert LineSafe(Field(ns[0])) && |Field(ns[0])| == 2;
    }
  }

  lemma {:induction false} LineIsShort(hash: nat)
    requires hash < 10
    ensures LineSafe(Line(hash)) && |Line(hash)| == 21
  {
    var ns: seq<int> := [1, 0, 0, 1, 1, 0, 2, hash, 1];
    assert Numbers(Small(hash)) == ns;
    SmallFields(ns);
    assert Line(hash) == "SIG" + Fields(ns);
  }

  lemma {:induction false} LineIsComplete(hash: nat)
    requires hash < 10
    ensures ContentSignatureIsComplete(Line(hash))
  {
    WrittenIsComplete(Small(hash));
  }

  lemma {:induction false} CompleteByRules(line: string)
    ensures SignatureRules().complete(line) == ContentSignatureIsComplete(line)
  {
  }

  lemma {:induction false} LinesDiffer()
    ensures !SignatureRules().Same(Line(0), Line(1))
  {
    LineIsComplete(0);
    LineIsComplete(1);
    SignatureRoundTrip(Small(0));
    SignatureRoundTrip(Small(1));
    CompleteMatchIsKeyEquality(Line(0), Line(1), false);
  }

  lemma {:induction false} SignaturesAreReflexive()
    ensures Reflexive(SignatureRules())
  {
    forall s | SignatureRules().complete(s) ensures SignatureRules().Same(s, s) {
      CompleteMatchIsEquivalence(s, s, s, false);
    }
  }

  // ----- three requests -----

  /** A signature line as the engine writes it: short, and complete by the rules. */
  lemma {:induction false} Written(hash: nat) returns (line: string)
    requires hash < 10
    ensures line == Line(hash) && LineSafe(line) && |line| == 21 && SignatureRules().complete(line)
  {
    line := Line(hash);
    LineIsShort(hash);
    LineIsComplete(hash);
    CompleteByRules(line);
  }

  /** A request for a checkpoint that is a block. */
  lemma {:induction false} BlockWanted(line: string) returns (r: Request, t: Target)
    requires LineSafe(line) && |line| == 21 && SignatureRules().complete(line)
    ensures Wanted(SignatureRules(), r) == Some(t) && r.layout.EncodedBlock? && !t.undo
  {
    r := Request(EncodedBlock, 1, SignedMagic + line + "\n" + "x", "", true);
    BlockIsRead("x", line);
    BlockSays(r, Block("x", line));
    t := Target("x", line, false, "", -1);
  }

  lemma {:induction false} BlockIsRead(block: string, line: string)
    requires LineSafe(line) && line != "" && AllText(block) && 0 < |block| < 1000 && |line| < 1000
    ensures ReadBack(SignedMagic + line + "\n" + block) == Ok(Block(block, line))
  {
    NarrowIsSame(line);
    BlockRoundTrip(Block(block, line));
  }

  lemma {:induction false} BlockSays(r: Request, b: Block)
    requires r.nameCreated && r.layout.EncodedBlock? && ReadBack(r.checkpoint) == Ok(b)
    requires SignatureRules().complete(b.signature)
    ensures Wanted(SignatureRules(), r) == Some(Target(b.block, b.signature, false, "", -1))
  {
  }

  function Joined(lines: seq<string>): string {
    if lines == [] then "" else lines[0] + "\n" + Joined(lines[1..])
  }

  lemma {:induction false} NoLines(s: string, from: nat)
    requires from <= |s| && s[from..] == ""
    ensures CheckpointMeta.Lines(s, from) == []
  {
    assert |s| - from == |s[from..]| == 0;
  }

  lemma {:induction false} HeadAndTail(lines: seq<string>) returns (line: string, rest: seq<string>)
    requires lines != [] && forall i :: 0 <= i < |lines| ==> CheckpointMeta.NoFeed(lines[i])
    ensures lines == [line] + rest && |rest| < |lines| && Joined(lines) == line + "\n" + Joined(rest)
    ensures CheckpointMeta.NoFeed(line) && forall i :: 0 <= i < |rest| ==> CheckpointMeta.NoFeed(rest[i])
  {
    line, rest := lines[0], lines[1..];
  }

  lemma {:induction false} JoinedLines(s: string, from: nat, lines: seq<string>)
    requires from <= |s| && s[from..] == Joined(lines)
    requires forall i :: 0 <= i < |lines| ==> CheckpointMeta.NoFeed(lines[i])
    ensures CheckpointMeta.Lines(s, from) == lines
    decreases |lines|
  {
    if lines == [] {
      NoLines(s, from);
    } else {
      var line, rest := HeadAndTail(lines);
      var next := CheckpointMeta.LineThen(s, from, line, Joined(rest));
      JoinedLines(s, next, rest);
    }
  }

  /** What a short sidecar says is what its lines say. */
  lemma {:induction false} SidecarSays(lines: seq<string>)
    requires forall i :: 0 <= i < |lines| ==> CheckpointMeta.NoFeed(lines[i])
    requires |Joined(lines)| < 4000
    ensures var file := CheckpointMeta.MetaMagic + Joined(lines);
      CheckpointMeta.ReadMeta(file) == CheckpointMeta.ApplyAll(CheckpointMeta.Blank, CheckpointMeta.Facts(lines))
  {
    var file := CheckpointMeta.MetaMagic + Joined(lines);
    assert file[CheckpointMeta.MetaMagicLength..] == Joined(lines);
    JoinedLines(file, CheckpointMeta.MetaMagicLength, lines);
  }

  lemma {:induction false} LinesSay(line: string)
    requires LineSafe(line)
    ensures CheckpointMeta.Classify("FMT HWP") == CheckpointMeta.FormatLine("HWP")
    ensures CheckpointMeta.Classify("SIG " + line) == CheckpointMeta.Line.SignatureLine(line)
    ensures CheckpointMeta.Classify("HISTORY P1_SINGLE_TEXT_UNDO") == CheckpointMeta.HistoryLine
  {
    CheckpointMeta.ClassifyWritten(line);
    CheckpointMeta.ClassifyWritten("HWP");
    assert "FMT HWP" == "FMT " + "HWP";
    assert "HISTORY P1_SINGLE_TEXT_UNDO"[0] == 'H';
  }

  lemma {:induction false} OriginsSay(line: string)
    requires LineSafe(line)
    ensures CheckpointMeta.Classify("ORIGIN " + line) == CheckpointMeta.OriginLine(line)
    ensures CheckpointMeta.Classify("ORIGIN_PAGES 1") == CheckpointMeta.OriginPagesLine(Some(1))
  {
    var origin := "ORIGIN " + line;
    assert origin[7..] == line && origin[0] == 'O' && "ORIGIN " <= origin;
    assert "ORIGIN_PAGES 1"[13..] == "1" && "ORIGIN_PAGES 1"[6] == '_';
  }

  lemma {:induction false} TwoFacts(a: string, b: string)
    ensures CheckpointMeta.Facts([a, b]) == [CheckpointMeta.Classify(a), CheckpointMeta.Classify(b)]
  {
    CheckpointMeta.FactsCons(a, [b]);
    CheckpointMeta.FactsCons(b, []);
    assert [b] + [] == [b] && [a] + [b] == [a, b];
  }

  lemma {:induction false} TwoApplied(m: CheckpointMeta.Meta, a: CheckpointMeta.Line, b: CheckpointMeta.Line)
    ensures CheckpointMeta.ApplyAll(m, [a, b]) == CheckpointMeta.Apply(CheckpointMeta.Apply(m, a), b)
  {
    CheckpointMeta.ApplyCons(m, a, [b]);
    CheckpointMeta.ApplyCons(CheckpointMeta.Apply(m, a), b, []);
    assert [b] + [] == [b] && [a] + [b] == [a, b];
  }

  lemma {:induction false} FileLinesJoin(line: string)
    requires LineSafe(line) && |line| == 21
    ensures |Joined(["FMT HWP", "SIG " + line])| < 4000
    ensures CheckpointMeta.NoFeed("FMT HWP") && CheckpointMeta.NoFeed("SIG " + line)
  {
    var one, two := ["SIG " + line], ["FMT HWP", "SIG " + line];
    assert two[1..] == one && one[1..] == [];
    assert Joined(one) == "SIG " + line + "\n" + "";
  }

  lemma {:induction false} FileApplied(line: string)
    requires line != ""
    ensures var m := CheckpointMeta.ApplyAll(CheckpointMeta.Blank,
              [CheckpointMeta.FormatLine("HWP"), CheckpointMeta.Line.SignatureLine(line)]);
      !CheckpointMeta.SingleTextUndo(m) && m.signature == line && m.origin == "" && m.originPages == None
  {
    TwoApplied(CheckpointMeta.Blank, CheckpointMeta.FormatLine("HWP"), CheckpointMeta.Line.SignatureLine(line));
  }

  lemma {:induction false} FileSidecar(line: string) returns (sidecar: string, m: CheckpointMeta.Meta)
    requires LineSafe(line) && |line| == 21
    ensures m == CheckpointMeta.ReadMeta(sidecar) && !CheckpointMeta.SingleTextUndo(m)
    ensures m.signature == line && m.origin == "" && m.originPages == None
  {
    var lines := ["FMT HWP", "SIG " + line];
    FileLinesJoin(line);
    SidecarSays(lines);
    LinesSay(line);
    TwoFacts("FMT HWP", "SIG " + line);
    FileApplied(line);
    sidecar := CheckpointMeta.MetaMagic + Joined(lines);
    m := CheckpointMeta.ReadMeta(sidecar);
  }

  /** A request for a checkpoint that is a document file. */
  lemma {:induction false} FileWanted(line: string) returns (r: Request, t: Target)
    requires LineSafe(line) && |line| == 21 && SignatureRules().complete(line)
    ensures Wanted(SignatureRules(), r) == Some(t) && r.layout.DocumentFile? && !t.undo
  {
    var sidecar, m := FileSidecar(line);
    r := Request(DocumentFile, 1, "x", sidecar, true);
    t := Target("", line, false, "", -1);
    FileSays(r, m, t);
  }

  /** The target of a document file is what its sidecar says. */
  lemma {:induction false} FileSays(r: Request, m: CheckpointMeta.Meta, t: Target)
    requires r.nameCreated && r.layout.DocumentFile? && r.checkpoint != "" && m == CheckpointMeta.ReadMeta(r.sidecar)
    requires t == Target("", m.signature, CheckpointMeta.SingleTextUndo(m), m.origin,
                         if m.originPages.Some? then m.originPages.value else -1)
    requires Authorises(SignatureRules(), t)
    ensures Wanted(SignatureRules(), r) == Some(t)
  {
  }

  lemma {:induction false} UndoFacts(line: string)
    requires LineSafe(line)
    ensures CheckpointMeta.Facts(["HISTORY P1_SINGLE_TEXT_UNDO", "ORIGIN " + line, "ORIGIN_PAGES 1"]) ==
            [CheckpointMeta.HistoryLine, CheckpointMeta.OriginLine(line), CheckpointMeta.OriginPagesLine(Some(1))]
  {
    LinesSay(line);
    OriginsSay(line);
    var a, b, c := "HISTORY P1_SINGLE_TEXT_UNDO", "ORIGIN " + line, "ORIGIN_PAGES 1";
    TwoFacts(b, c);
    CheckpointMeta.FactsCons(a, [b, c]);
    assert [a] + [b, c] == [a, b, c];
  }

  lemma {:induction false} UndoLinesFact(line: string)
    requires LineSafe(line)
    ensures CheckpointMeta.Facts(
              ["FMT HWP", "SIG " + line, "HISTORY P1_SINGLE_TEXT_UNDO", "ORIGIN " + line, "ORIGIN_PAGES 1"]) ==
            [CheckpointMeta.FormatLine("HWP"), CheckpointMeta.Line.SignatureLine(line), CheckpointMeta.HistoryLine,
             CheckpointMeta.OriginLine(line), CheckpointMeta.OriginPagesLine(Some(1))]
  {
    LinesSay(line);
    UndoFacts(line);
    var a, b := "FMT HWP", "SIG " + line;
    var rest := ["HISTORY P1_SINGLE_TEXT_UNDO", "ORIGIN " + line, "ORIGIN_PAGES 1"];
    CheckpointMeta.FactsCons(b, rest);
    CheckpointMeta.FactsCons(a, [b] + rest);
    assert [a] + ([b] + rest) == [a, b] + rest;
  }

  lemma {:induction false} UndoApplied(line: string)
    requires line != ""
    ensures var m := CheckpointMeta.ApplyAll(CheckpointMeta.Blank,
              [CheckpointMeta.FormatLine("HWP"), CheckpointMeta.Line.SignatureLine(line), CheckpointMeta.HistoryLine,
               CheckpointMeta.OriginLine(line), CheckpointMeta.OriginPagesLine(Some(1))]);
      CheckpointMeta.SingleTextUndo(m) && m.signature == line && m.origin == line && m.originPages == Some(1)
  {
    var a, b := CheckpointMeta.FormatLine("HWP"), CheckpointMeta.Line.SignatureLine(line);
    var c, d := CheckpointMeta.HistoryLine, CheckpointMeta.OriginLine(line);
    var e := CheckpointMeta.OriginPagesLine(Some(1));
    var m1 := CheckpointMeta.Apply(CheckpointMeta.Blank, a);
    var m2 := CheckpointMeta.Apply(m1, b);
    CheckpointMeta.ApplyCons(CheckpointMeta.Blank, a, [b, c, d, e]);
    CheckpointMeta.ApplyCons(m1, b, [c, d, e]);
    CheckpointMeta.ApplyCons(m2, c, [d, e]);
    TwoApplied(CheckpointMeta.Apply(m2, c), d, e);
    assert [a] + [b, c, d, e] == [a, b, c, d, e] && [b] + [c, d, e] == [b, c, d, e] && [c] + [d, e] == [c, d, e];
  }

  lemma {:induction false} UndoLinesJoin(line: string)
    requires LineSafe(line) && |line| == 21
    ensures var lines := ["FMT HWP", "SIG " + line, "HISTORY P1_SINGLE_TEXT_UNDO", "ORIGIN " + line, "ORIGIN_PAGES 1"];
      |Joined(lines)| < 4000 && forall i :: 0 <= i < |lines| ==> CheckpointMeta.NoFeed(lines[i])
  {
    var lines := ["FMT HWP", "SIG " + line, "HISTORY P1_SINGLE_TEXT_UNDO", "ORIGIN " + line, "ORIGIN_PAGES 1"];
    ShortLines(lines);
    assert CheckpointMeta.NoFeed(lines[1]) && CheckpointMeta.NoFeed(lines[3]);
  }

  lemma {:induction false} ShortLines(lines: seq<string>)
    requires forall i :: 0 <= i < |lines| ==> |lines[i]| < 100
    ensures |Joined(lines)| <= 100 * |lines|
  {
    if lines != [] {
      ShortLines(lines[1..]);
    }
  }

  lemma {:induction false} UndoSidecar(line: string) returns (sidecar: string, m: CheckpointMeta.Meta)
    requires LineSafe(line) && |line| == 21
    ensures m == CheckpointMeta.ReadMeta(sidecar) && CheckpointMeta.SingleTextUndo(m)
    ensures m.signature == line && m.origin == line && m.originPages == Some(1)
  {
    var lines := ["FMT HWP", "SIG " + line, "HISTORY P1_SINGLE_TEXT_UNDO", "ORIGIN " + line, "ORIGIN_PAGES 1"];
    UndoLinesJoin(line);
    SidecarSays(lines);
    UndoLinesFact(line);
    UndoApplied(line);
    sidecar := CheckpointMeta.MetaMagic + Joined(lines);
    m := CheckpointMeta.ReadMeta(sidecar);
  }

  /** A request that authorises an Undo. */
  lemma {:induction false} UndoWanted(line: string) returns (r: Request, t: Target)
    requires LineSafe(line) && |line| == 21 && SignatureRules().complete(line)
    ensures Wanted(SignatureRules(), r) == Some(t) && t.undo && t.origin == line
  {
    var sidecar, m := UndoSidecar(line);
    r := Request(DocumentFile, 1, "x", sidecar, true);
    t := Target("", line, true, line, 1);
    FileSays(r, m, t);
  }

  // ----- and what they lose -----

  /** An engine in which nothing fails, and every change leaves document 7. */
  function Obliging(signature: string, block: string): Mood {
    Mood(signature, "", block, true, false, true, true, true, true, true, 0, 7)
  }

  lemma {:induction false} RulesProceed(r: Request, t: Target, m: Mood)
    requires Wanted(SignatureRules(), r) == Some(t)
    requires LineSafe(m.signature) && |m.signature| == 21 && SignatureRules().complete(m.signature)
    requires !(m.moves && m.seen) && |m.block| == 1 && AllAscii(m.block)
    ensures Proceeds(SignatureRules(), r, t, m, "")
  {
    SignaturesAreSensible();
    SignaturesAreCoherent();
    SignaturesAreReflexive();
    SmallIsSaved(m.block, m.signature);
  }

  lemma {:induction false} SmallIsSaved(block: string, line: string)
    requires |block| == 1 && AllAscii(block) && |line| == 21
    ensures Saved(Block(block, line)).Ok?
  {
  }

  /** A run under the rules of the signature lines, on document 0, that loses something. */
  ghost predicate Loses(w: World, r: Request, outcome: Outcome) {
    Begins(w) && w.rules == SignatureRules() && w.doc == 0 && RestoreStep(w, r).1 == outcome &&
    !NothingLost(RestoreStep(w, r).0, outcome)
  }

  lemma {:induction false} RefusedLoses() returns (w: World, r: Request, outcome: Outcome)
    ensures Loses(w, r, outcome) && outcome.Refused?
  {
    var line := Written(0);
    var other := Written(1);
    var t;
    r, t := FileWanted(line);
    w := RefusalCanLose(SignatureRules(), r, Obliging(other, "x").(moves := true, movesBack := false), "", 0);
    outcome := RestoreStep(w, r).1;
  }

  lemma {:induction false} RolledBackLoses() returns (w: World, r: Request, outcome: Outcome)
    ensures Loses(w, r, outcome) && outcome.RolledBack?
  {
    var line := Written(0);
    var other := Written(1);
    var t;
    r, t := FileWanted(line);
    var m := Obliging(other, "x").(reaches := false, content := false);
    RulesProceed(r, t, m);
    w := RollbackCanLose(SignatureRules(), r, t, m, "", 0);
    outcome := RestoreStep(w, r).1;
  }

  lemma {:induction false} OriginLoses() returns (w: World, r: Request, outcome: Outcome)
    ensures Loses(w, r, outcome) && outcome.OriginRestored?
  {
    var line := Written(0);
    var other := Written(1);
    LinesDiffer();
    var t;
    r, t := UndoWanted(line);
    var m := Obliging(other, "x").(reaches := false);
    RulesProceed(r, t, m);
    w := OriginCanLose(SignatureRules(), r, t, m, "", 0);
    outcome := RestoreStep(w, r).1;
  }

  lemma {:induction false} SessionIsLost() returns (w: World, r: Request, outcome: Outcome)
    ensures Loses(w, r, outcome) && outcome.Restored?
  {
    var line := Written(0);
    var other := Written(1);
    var t;
    r, t := BlockWanted(line);
    var m := Obliging(other, "x").(moves := true, seen := false);
    RulesProceed(r, t, m);
    w := SessionCanBeLost(SignatureRules(), r, t, m, "", 0);
    outcome := RestoreStep(w, r).1;
  }

  lemma {:induction false} StaleLoses() returns (w: World, r: Request, outcome: Outcome)
    ensures Loses(w, r, outcome) && outcome.CopyKept? && outcome.rollback.usesFile
  {
    var line := Written(0);
    var other := Written(1);
    var t;
    r, t := UndoWanted(line);
    var m := Obliging(other, "x").(changes := false, edits := 1);
    RulesProceed(r, t, m);
    w := CopyCanBeStale(SignatureRules(), r, t, m, "", 0);
    outcome := RestoreStep(w, r).1;
  }

  lemma {:induction false} UnreadableLoses() returns (w: World, r: Request, outcome: Outcome)
    ensures Loses(w, r, outcome) && outcome.CopyKept? && !outcome.rollback.usesFile
  {
    var line := Written(0);
    var other := Written(1);
    var t;
    r, t := BlockWanted(line);
    var m := Obliging(other, "\0").(changes := false, saves := false);
    assert !IsText(m.block[0]);
    RulesProceed(r, t, m);
    w := CopyCanBeUnreadable(SignatureRules(), r, t, m, "", 0);
    outcome := RestoreStep(w, r).1;
  }

  /** Each way of losing something happens on a request and signatures as they are written. */
  lemma {:induction false} LossesAreReal()
    ensures exists w, r, outcome :: Loses(w, r, outcome) && outcome.Refused?
    ensures exists w, r, outcome :: Loses(w, r, outcome) && outcome.RolledBack?
    ensures exists w, r, outcome :: Loses(w, r, outcome) && outcome.OriginRestored?
    ensures exists w, r, outcome :: Loses(w, r, outcome) && outcome.Restored?
    ensures exists w, r, outcome :: Loses(w, r, outcome) && outcome.CopyKept? && outcome.rollback.usesFile
    ensures exists w, r, outcome :: Loses(w, r, outcome) && outcome.CopyKept? && !outcome.rollback.usesFile
  {
    var w1, r1, o1 := RefusedLoses();
    var w2, r2, o2 := RolledBackLoses();
    var w3, r3, o3 := OriginLoses();
    var w4, r4, o4 := SessionIsLost();
    var w5, r5, o5 := StaleLoses();
    var w6, r6, o6 := UnreadableLoses();
  }
}
