/** Runs of a checkpoint restore that keep less than the call reports. */
module StubbornEngine {
  import opened Options
  import opened CheckpointSignatures
  import opened EncodedBlocks
  import opened RestoreWorld
  import opened CheckpointRestore
  import opened RestoreSteps
  import opened RestoreResults
  import opened RestorePromises

  /**
   * How an engine goes about it in which nothing fails but what is named: what the signature reads as while the copy
   * is taken and when authority is checked, and the block; whether the copy can be saved, whether saving it moves the
   * session, whether that is seen and whether the session can be moved back; whether changes are carried out; whether
   * the page count towards the checkpoint comes out; whether content is read back as expected, or else not at all;
   * how many edits arrive while identity is checked; and what every change leaves.
   */
  datatype Mood = Mood(signature: string, authority: string, block: string, saves: bool, moves: bool, seen: bool,
                       movesBack: bool, changes: bool, reaches: bool, content: bool, edits: nat, doc: Doc)

  function Stubborn(m: Mood): Script {
    (n: nat, c: Call) =>
      var usual := Answer(true, false, true, Some(1), m.signature, m.doc, 0);
      match c
      case ReadPath => usual.(ok := m.seen || n < 3)
      case SaveCopy => usual.(ok := m.saves, landed := m.moves)
      case SaveBack => usual.(ok := m.movesBack, landed := m.movesBack)
      case CaptureBlock => usual.(text := m.block)
      case Identify => usual.(edits := m.edits)
      case Do(_, _) => usual.(ok := m.changes, landed := true)
      case CountPages(leg, expected) =>
        usual.(pages := if leg == Forward && !m.reaches then None else if expected.Some? then expected else Some(1))
      case ReadSignature(_, ForAuthority) => usual.(text := m.authority)
      case ReadSignature(_, ForProof(expected, _)) => usual.(text := if m.content then expected else "")
      case _ => usual
  }

  function StubbornWorld(rules: Rules, m: Mood, authorised: string, doc: Doc): World {
    Fresh(Stubborn(m), rules, authorised, doc)
  }

  /** The copy is the document file, or the block if that cannot be saved. */
  function StubbornRollback(m: Mood): Rollback {
    Rollback(m.saves, true, if m.saves then "" else m.block, 1, m.signature)
  }

  /** A complete signature matches itself. */
  ghost predicate Reflexive(rules: Rules) {
    forall s :: rules.complete(s) ==> rules.Same(s, s)
  }

  /** The capture succeeds: a move of the session, if there is one, goes unseen, and a block can be stored. */
  predicate Captures(rules: Rules, m: Mood) {
    !(m.moves && m.seen) && rules.complete(m.signature) && (!m.saves ==> Saved(Block(m.block, m.signature)).Ok?)
  }

  // ----- preparation -----

  ghost predicate IsStubborn(w: World, m: Mood, doc: Doc) {
    w.script == Stubborn(m) && w.doc == doc && w.notes == Notes(doc, 0, None, 0, m.moves, false) &&
    w.session == (if m.moves then OnCopy else OnUserPath) && !w.identified
  }

  lemma {:induction false} StubbornFile(w: World, m: Mood)
    requires w.script == Stubborn(m) && w.calls == 1 && w.session == OnUserPath && !(m.moves && m.seen) && !w.identified
    requires w.notes == Notes(w.doc, 0, None, 0, false, false)
    ensures var (v, capture) := CaptureFileStep(w);
      IsStubborn(v, m, w.doc) && capture == (if m.saves then Written(m.signature) else Unavailable)
  {
    var w1 := Next(w, ReadPath);
    StubbornSave(w1, m);
    var w2 := Next(w1, SaveCopy);
    assert Reply(w2, ReadPath).ok == m.seen;
    var w3 := Next(w2, ReadPath);
    StubbornReads(w3, m, ForCopy);
  }

  lemma {:induction false} StubbornSave(w: World, m: Mood)
    requires w.script == Stubborn(m) && w.session == OnUserPath && !w.identified
    requires w.notes == Notes(w.doc, 0, None, 0, false, false)
    ensures var v := Next(w, SaveCopy);
      IsStubborn(v, m, w.doc) && v.calls == w.calls + 1 && Reply(w, SaveCopy).ok == m.saves
  {
  }

  /** Reading a signature while the copy is taken. */
  lemma {:induction false} StubbornReads(w: World, m: Mood, purpose: Purpose)
    requires IsStubborn(w, m, w.doc) && purpose == ForCopy
    ensures var read := ReadSignature(Prepare, purpose);
      IsStubborn(Next(w, read), m, w.doc) && Reply(w, read).text == m.signature
  {
  }

  lemma {:induction false} StubbornTakesBlock(w: World, m: Mood)
    requires IsStubborn(w, m, w.doc)
    ensures IsStubborn(Next(w, CaptureBlock), m, w.doc) && Reply(w, CaptureBlock).text == m.block
  {
  }

  lemma {:induction false} StubbornCounts(w: World, m: Mood)
    requires IsStubborn(w, m, w.doc)
    ensures var count := CountPages(Prepare, None);
      IsStubborn(Next(w, count), m, w.doc) && Reply(w, count).pages == Some(1)
  {
  }

  lemma {:induction false} StubbornStores(w: World, m: Mood, b: Block)
    requires IsStubborn(w, m, w.doc)
    ensures IsStubborn(Next(w, StoreBlock(b)), m, w.doc) && Reply(w, StoreBlock(b)).ok
  {
  }

  lemma {:induction false} StubbornBlock(w: World, m: Mood)
    requires IsStubborn(w, m, w.doc) && Saved(Block(m.block, m.signature)).Ok? && !m.saves
    ensures var (v, rollback) := CaptureBlockStep(w, true);
      IsStubborn(v, m, w.doc) && rollback == Some(StubbornRollback(m))
  {
    StubbornTakesBlock(w, m);
    var w1 := Next(w, CaptureBlock);
    StubbornReads(w1, m, ForCopy);
    var w2 := Next(w1, ReadSignature(Prepare, ForCopy));
    StubbornCounts(w2, m);
    StubbornStores(Next(w2, CountPages(Prepare, None)), m, Block(m.block, m.signature));
  }

  lemma {:induction false} StubbornCapture(rules: Rules, m: Mood, authorised: string, doc: Doc)
    requires Captures(rules, m)
    ensures var (v, rollback) := CaptureStep(StubbornWorld(rules, m, authorised, doc));
      IsStubborn(v, m, doc) && rollback == Some(StubbornRollback(m))
  {
    var w1 := Next(StubbornWorld(rules, m, authorised, doc), ReadPath);
    StubbornFile(w1, m);
    var (w2, capture) := CaptureFileStep(w1);
    StubbornSettles(w2, m, capture);
  }

  lemma {:induction false} StubbornSettles(w: World, m: Mood, capture: FileCapture)
    requires IsStubborn(w, m, w.doc) && (!m.saves ==> Saved(Block(m.block, m.signature)).Ok?)
    requires capture == if m.saves then Written(m.signature) else Unavailable
    ensures var (v, rollback) := RollbackStep(w, capture, true);
      IsStubborn(v, m, w.doc) && rollback == Some(StubbornRollback(m))
  {
    if m.saves {
      StubbornCounts(w, m);
    } else {
      StubbornBlock(w, m);
    }
  }

  /** The check of authority passes. */
  predicate Passes(rules: Rules, m: Mood, authorised: string) {
    authorised == "" ||
    (rules.complete(authorised) && rules.complete(m.authority) && rules.Same(authorised, m.authority))
  }

  /** A world with a stubborn engine in which the preparation succeeds, and what that leaves. */
  lemma {:induction false} Engage(rules: Rules, m: Mood, authorised: string, doc: Doc) returns (w: World, w1: World)
    requires Captures(rules, m) && Passes(rules, m, authorised)
    ensures Begins(w) && w.rules == rules && w.authorised == authorised && w.doc == doc
    ensures PrepareStep(w) == (w1, Some(StubbornRollback(m))) && w1.script == Stubborn(m) && w1.rules == rules
    ensures w1.notes.since == m.edits && w1.notes.stale == (if authorised == "" then 0 else m.edits)
    ensures w1.doc == doc + m.edits && w1.session == if m.moves then OnCopy else OnUserPath
  {
    w := StubbornWorld(rules, m, authorised, doc);
    StubbornCapture(rules, m, authorised, doc);
    CaptureRuns(w);
    StubbornIdentity(CaptureStep(w).0, m);
    StubbornAuthority(Next(CaptureStep(w).0, Identify), m);
    w1 := PrepareStep(w).0;
  }

  lemma {:induction false} StubbornIdentity(w: World, m: Mood)
    requires w.script == Stubborn(m)
    ensures var v := Next(w, Identify);
      Reply(w, Identify).ok && v.script == w.script && v.rules == w.rules && v.authorised == w.authorised &&
      v.session == w.session && v.doc == w.doc + m.edits && v.notes.since == w.notes.since + m.edits &&
      v.notes.stale == w.notes.since
  {
  }

  lemma {:induction false} StubbornAuthority(w: World, m: Mood)
    requires w.script == Stubborn(m) && Passes(w.rules, m, w.authorised)
    ensures var (v, ok) := AuthorityStep(w);
      ok && v.script == w.script && v.rules == w.rules && v.session == w.session && v.doc == w.doc &&
      v.notes.since == w.notes.since &&
      v.notes.stale == if w.authorised == "" then w.notes.stale else w.notes.since
  {
  }

  // ----- after it -----

  /** Content read for proof is what was expected, or it is not read at all. */
  lemma {:induction false} StubbornVerify(w: World, m: Mood, leg: Leg, pages: int, expected: string, demand: Demand)
    requires w.script == Stubborn(m) && expected != "" && leg != Prepare
    ensures Seen(w.rules, m, leg, expected, demand, VerifyStep(w, leg, pages, expected, demand).1)
  {
  }

  lemma {:induction false} StubbornClear(w: World, m: Mood, leg: Leg)
    requires w.script == Stubborn(m)
    ensures ClearBodyStep(w, leg).1
  {
    var w1 := Next(w, Ends(leg));
    assert DeleteBodyStep(w, leg) == (w1, true);
    assert Reply(w1, Ends(leg)).ok && Reply(w1, Ends(leg)).same;
    assert Reply(Next(w1, Ends(leg)), Observe(leg)).ok;
  }

  lemma {:induction false} StubbornInsert(w: World, m: Mood, leg: Leg)
    requires w.script == Stubborn(m)
    ensures InsertStep(w, leg).1 == m.changes
  {
  }

  /** What comes of a look at the document. */
  predicate Seen(rules: Rules, m: Mood, leg: Leg, expected: string, demand: Demand, evidence: Evidence) {
    if leg == Forward && !m.reaches then evidence == NoEvidence
    else if m.content then rules.Same(expected, expected) ==> evidence in {FullSignature, StructuralSignature}
    else evidence == if demand.requireContent then NoEvidence else PageCountOnly
  }

  lemma {:induction false} StubbornFill(w: World, m: Mood, leg: Leg, pages: int, signature: string)
    requires w.script == Stubborn(m) && w.empty && signature != "" && leg != Prepare
    ensures var evidence := FillStep(w, leg, pages, signature).1;
      if m.changes then Seen(w.rules, m, leg, signature, Demand(false, false), evidence) else evidence == NoEvidence
  {
    StubbornInsert(w, m, leg);
    InsertRuns(w, leg);
    var w1 := InsertStep(w, leg).0;
    StubbornVerify(w1, m, leg, pages, signature, Demand(false, false));
  }

  lemma {:induction false} StubbornBlockStep(w: World, m: Mood, leg: Leg, pages: int, signature: string)
    requires w.script == Stubborn(m) && signature != "" && leg != Prepare
    ensures var (v, evidence) := BlockStep(w, leg, pages, signature);
      v.script == w.script && v.rules == w.rules && v.session == w.session && v.replaced &&
      if m.changes then Seen(w.rules, m, leg, signature, Demand(false, false), evidence) else evidence == NoEvidence
  {
    StubbornClear(w, m, leg);
    ClearBodyRuns(w, leg);
    var w1 := ClearBodyStep(w, leg).0;
    StubbornFill(w1, m, leg, pages, signature);
    BlockRuns(w, leg, pages, signature);
    InsertReplaces(w1, leg, pages, signature);
  }

  lemma {:induction false} InsertReplaces(w: World, leg: Leg, pages: int, signature: string)
    requires w.empty && signature != "" && leg != Prepare
    ensures FillStep(w, leg, pages, signature).0.replaced
  {
    InsertRuns(w, leg);
    var (w1, inserted) := InsertStep(w, leg);
    if inserted {
      ProofRuns(w1, leg, pages, signature, Demand(false, false));
    }
  }

  lemma {:induction false} StubbornDoes(w: World, m: Mood, leg: Leg, c: Change)
    requires w.script == Stubborn(m)
    ensures var v := Next(w, Do(leg, c));
      Reply(w, Do(leg, c)).ok == m.changes && v.script == w.script && v.rules == w.rules && v.doc == m.doc &&
      (c == Open ==> v.session == OnUserPath) && (IsHistory(c) ==> v.undone)
  {
  }

  lemma {:induction false} StubbornArrives(w: World, m: Mood, leg: Leg)
    requires w.script == Stubborn(m) && w.session == OnUserPath
    ensures ArriveStep(w, leg).1
  {
  }

  lemma {:induction false} StubbornOpen(w: World, m: Mood, leg: Leg, source: Source)
    requires w.script == Stubborn(m) && leg != Prepare
    ensures OpenStep(w, leg, source).1 == m.changes
  {
    StubbornDoes(w, m, leg, CopyOver(source));
    var w1 := Next(w, Do(leg, CopyOver(source)));
    StubbornDoes(w1, m, leg, Open);
    StubbornArrives(Next(w1, Do(leg, Open)), m, leg);
  }

  lemma {:induction false} StubbornReopen(w: World, m: Mood, leg: Leg, source: Source, pages: int, signature: string,
                                          clear: bool)
    requires w.script == Stubborn(m) && signature != "" && leg != Prepare
    ensures var (v, evidence, _) := ReopenStep(w, leg, source, true, pages, signature, clear);
      v.script == w.script && v.rules == w.rules && v.replaced &&
      if m.changes then Seen(w.rules, m, leg, signature, Demand(false, true), evidence) else evidence == NoEvidence
  {
    ClearRuns(w, leg);
    var w1 := if clear then Next(w, Do(leg, Clear)) else w;
    StubbornOpen(w1, m, leg, source);
    OpenRuns(w1, leg, source);
    StubbornVerify(OpenStep(w1, leg, source).0, m, leg, pages, signature, Demand(false, true));
    ReopenRuns(w, leg, source, pages, signature, clear);
  }

  /** Towards the checkpoint, and back: what becomes of it. */
  lemma {:induction false} StubbornReplace(w: World, m: Mood, layout: Layout, pages: int, target: Target)
    requires w.script == Stubborn(m) && m.signature != "" && target.signature != ""
    ensures var (v, outcome) := ReplaceStep(w, layout, pages, target, StubbornRollback(m));
      v.replaced && (!m.changes ==> outcome == CopyKept(StubbornRollback(m))) &&
      (m.changes && !m.reaches && !m.content ==> outcome == RolledBack(StubbornRollback(m), PageCountOnly)) &&
      (m.changes && m.reaches && m.content && layout.EncodedBlock? &&
       w.rules.Same(target.signature, target.signature) ==>
         outcome.Restored? && outcome.evidence != PageCountOnly && v.session == w.session)
  {
    if layout.EncodedBlock? {
      StubbornBlockStep(w, m, Forward, pages, target.signature);
    } else {
      StubbornReopen(w, m, Forward, FromCheckpoint, pages, target.signature, true);
    }
    var (v, evidence, clearFailed) := AttemptStep(w, layout, pages, target, true);
    if m.saves {
      StubbornReopen(v, m, Back, FromRecovery, 1, m.signature, !clearFailed);
    } else {
      StubbornBlockStep(v, m, Back, 1, m.signature);
    }
  }

  lemma {:induction false} StubbornUndo(w: World, m: Mood, pages: int, target: Target)
    requires w.script == Stubborn(m) && target.signature != "" && target.origin != ""
    ensures var (v, outcome) := UndoStep(w, pages, target, StubbornRollback(m));
      v.undone && (!m.changes ==> outcome == CopyKept(StubbornRollback(m))) &&
      (m.changes && !m.reaches && m.content && w.rules.Same(target.origin, target.origin) ==>
         outcome.OriginRestored? && outcome.rollback == StubbornRollback(m) && v.doc == m.doc) &&
      (m.changes && m.reaches && m.content && w.rules.Same(target.signature, target.signature) ==>
         outcome.Restored? && outcome.evidence != PageCountOnly && v.session == w.session)
  {
    var w1 := Next(w, Do(Forward, Undo));
    if m.changes {
      var w3 := Next(Next(w1, Glance), Observe(Forward));
      var w4 := Next(w3, Glance);
      StubbornVerify(w4, m, Forward, pages, target.signature, Demand(true, false));
      VerifyRuns(w4, Forward, pages, target.signature, Demand(true, false));
      StubbornRedo(VerifyStep(w4, Forward, pages, target.signature, Demand(true, false)).0, m, target);
    }
  }

  lemma {:induction false} StubbornLooks(w: World, m: Mood, c: Call)
    requires w.script == Stubborn(m) && c == Observe(Back)
    ensures var v := Next(w, c);
      Reply(w, c).ok && v.script == w.script && v.rules == w.rules && v.doc == w.doc && v.undone == w.undone
  {
  }

  lemma {:induction false} StubbornRedo(w: World, m: Mood, target: Target)
    requires w.script == Stubborn(m) && target.origin != "" && m.changes
    ensures var (v, outcome) := RedoStep(w, target, StubbornRollback(m));
      v.undone &&
      (m.content && w.rules.Same(target.origin, target.origin) ==>
         outcome.OriginRestored? && outcome.rollback == StubbornRollback(m) && v.doc == m.doc)
  {
    StubbornDoes(w, m, Back, Redo);
    var w1 := Next(w, Do(Back, Redo));
    StubbornLooks(w1, m, Observe(Back));
    var w2 := Next(w1, Observe(Back));
    StubbornVerify(w2, m, Back, target.originPages, target.origin, Demand(true, false));
    VerifyRuns(w2, Back, target.originPages, target.origin, Demand(true, false));
  }

  /** A prepared restore is an Undo or a replacement. */
  lemma {:induction false} RestoreProceeds(w: World, r: Request, t: Target, rollback: Rollback)
    requires Wanted(w.rules, r) == Some(t) && PrepareStep(w).1 == Some(rollback)
    ensures var (u, outcome) := if t.undo then UndoStep(PrepareStep(w).0, r.pages, t, rollback)
                                else ReplaceStep(PrepareStep(w).0, r.layout, r.pages, t, rollback);
      RestoreStep(w, r) == (Swept(u, outcome), outcome)
  {
  }

  // ----- runs on which something is lost -----

  /** What the runs below have in common. */
  ghost predicate Proceeds(rules: Rules, r: Request, t: Target, m: Mood, authorised: string) {
    Wanted(rules, r) == Some(t) && Sensible(rules) && Coherent(rules) && Reflexive(rules) && Captures(rules, m) &&
    Passes(rules, m, authorised)
  }

  /** Where a run begins: the rules, the caller's signature and the document are given. */
  ghost predicate Starts(w: World, rules: Rules, authorised: string, doc: Doc) {
    Begins(w) && w.rules == rules && w.authorised == authorised && w.doc == doc
  }

  /** The save moves the session and the save back fails: refused, with the file rewritten, and without a copy. */
  lemma {:induction false} RefusalCanLose(rules: Rules, r: Request, m: Mood, authorised: string, doc: Doc)
    returns (w: World)
    requires Wanted(rules, r).Some? && m.moves && m.seen && !m.movesBack
    ensures Starts(w, rules, authorised, doc)
    ensures var (v, outcome) := RestoreStep(w, r);
      outcome.Refused? && v.notes.moved && v.userFile == Uncertain && v.session == OnCopy && v.copy == None &&
      !NothingLost(v, outcome)
  {
    w := StubbornWorld(rules, m, authorised, doc);
    var w1 := Next(w, ReadPath);
    StubbornFails(w1, m);
    RefusedThere(w, r, CaptureFileStep(w1).0);
  }

  lemma {:induction false} StubbornFails(w: World, m: Mood)
    requires w.script == Stubborn(m) && w.session == OnUserPath && m.moves && m.seen && !m.movesBack
    ensures var (v, capture) := CaptureFileStep(w);
      capture == Failed && v.userFile == Uncertain && v.session == OnCopy && v.notes.moved && v.copy == None
  {
  }

  /** A capture that fails refuses the restore as it stands. */
  lemma {:induction false} RefusedThere(w: World, r: Request, v: World)
    requires Wanted(w.rules, r).Some? && CaptureFileStep(Next(w, ReadPath)) == (v, Failed) && v.copy == None
    ensures RestoreStep(w, r) == (v, Refused)
  {
  }

  /**
   * Whatever checkpoint is asked for: the restore fails, the rollback is accepted on its page count, and the copy is
   * deleted; and after a document file a rollback from a block leaves the user's file overwritten.
   */
  lemma {:induction false} RollbackCanLose(rules: Rules, r: Request, t: Target, m: Mood, authorised: string, doc: Doc)
    returns (w: World)
    requires Proceeds(rules, r, t, m, authorised) && !t.undo && m.changes && !m.reaches && !m.content
    ensures Starts(w, rules, authorised, doc)
    ensures var (v, outcome) := RestoreStep(w, r);
      outcome == RolledBack(StubbornRollback(m), PageCountOnly) && v.copy == None &&
      (r.layout.DocumentFile? && !m.saves ==> v.userFile in {HoldsCheckpoint, Uncertain}) && !NothingLost(v, outcome)
  {
    var w1;
    w, w1 := Engage(rules, m, authorised, doc);
    StubbornReplace(w1, m, r.layout, r.pages, t);
    RestoreProceeds(w, r, t, StubbornRollback(m));
    RolledBackByPages(w, r, t);
  }

  lemma {:induction false} RolledBackByPages(w: World, r: Request, t: Target)
    requires Begins(w) && Sensible(w.rules) && Coherent(w.rules) && Wanted(w.rules, r) == Some(t)
    requires RestoreStep(w, r).1.RolledBack? && RestoreStep(w, r).1.evidence == PageCountOnly
    requires RestoreStep(w, r).1.rollback.pathKnown
    ensures var (v, outcome) := RestoreStep(w, r);
      v.copy == None && !NothingLost(v, outcome) &&
      (r.layout.DocumentFile? && !outcome.rollback.usesFile ==> v.userFile in {HoldsCheckpoint, Uncertain})
  {
    RestoreRuns(w, r, t);
    RollbackByContent(w, r);
    WhenNothingIsLost(w, r);
  }

  /**
   * An Undo misses and the Redo is proved to have brought back the sidecar's origin, which is not the document that
   * this call found: the call reports that it is, and deletes the copy.
   */
  lemma {:induction false} OriginCanLose(rules: Rules, r: Request, t: Target, m: Mood, authorised: string, doc: Doc)
    returns (w: World)
    requires Proceeds(rules, r, t, m, authorised) && t.undo && m.changes && !m.reaches && m.content
    requires !rules.Same(t.origin, m.signature) && m.doc != doc + m.edits
    ensures Starts(w, rules, authorised, doc)
    ensures var (v, outcome) := RestoreStep(w, r);
      outcome.OriginRestored? && v.copy == None && v.doc != Found(v) && !NothingLost(v, outcome)
  {
    var w1;
    w, w1 := Engage(rules, m, authorised, doc);
    StubbornUndo(w1, m, r.pages, t);
    RestoreProceeds(w, r, t, StubbornRollback(m));
    WhenNothingIsLost(w, r);
    CopyIsKept(w, r);
  }

  /** The move of the session goes unseen: the restore succeeds, and the session is left on the copy it deletes. */
  lemma {:induction false} SessionCanBeLost(rules: Rules, r: Request, t: Target, m: Mood, authorised: string, doc: Doc)
    returns (w: World)
    requires Proceeds(rules, r, t, m, authorised) && (t.undo || r.layout.EncodedBlock?)
    requires m.moves && m.changes && m.reaches && m.content
    ensures Starts(w, rules, authorised, doc)
    ensures var (v, outcome) := RestoreStep(w, r);
      outcome.Restored? && outcome.evidence != PageCountOnly && v.session == OnCopy && v.copy == None &&
      !NothingLost(v, outcome)
  {
    var w1;
    w, w1 := Engage(rules, m, authorised, doc);
    if t.undo {
      StubbornUndo(w1, m, r.pages, t);
    } else {
      StubbornReplace(w1, m, r.layout, r.pages, t);
    }
    RestoreProceeds(w, r, t, StubbornRollback(m));
    CopyIsKept(w, r);
  }

  /** Changes are refused, whatever checkpoint is asked for: the copy is kept. */
  lemma {:induction false} StubbornKeepsCopy(rules: Rules, r: Request, t: Target, m: Mood, authorised: string, doc: Doc)
    returns (w: World)
    requires Proceeds(rules, r, t, m, authorised) && !m.changes
    ensures Starts(w, rules, authorised, doc)
    ensures var (v, outcome) := RestoreStep(w, r);
      outcome == CopyKept(StubbornRollback(m)) && v.changes != [] && v.notes.since == m.edits &&
      v.notes.stale == if authorised == "" then 0 else m.edits
  {
    var w1;
    w, w1 := Engage(rules, m, authorised, doc);
    if t.undo {
      StubbornUndo(w1, m, r.pages, t);
    } else {
      StubbornReplace(w1, m, r.layout, r.pages, t);
    }
    RestoreProceeds(w, r, t, StubbornRollback(m));
    RestoreRuns(w, r, t);
  }

  /** An edit arrives after the copy was taken: the change is refused, and the copy kept is of an older document. */
  lemma {:induction false} CopyCanBeStale(rules: Rules, r: Request, t: Target, m: Mood, authorised: string, doc: Doc)
    returns (w: World)
    requires Proceeds(rules, r, t, m, authorised) && !m.changes && m.edits > 0
    ensures Starts(w, rules, authorised, doc)
    ensures var (v, outcome) := RestoreStep(w, r);
      outcome == CopyKept(StubbornRollback(m)) && v.copy.Some? && v.copy.value.doc != Found(v) &&
      !NothingLost(v, outcome) &&
      (authorised != "" ==> v.notes.checked.Some? && v.copy.value.doc != v.notes.checked.value)
  {
    w := StubbornKeepsCopy(rules, r, t, m, authorised, doc);
    WhenCopyIsCurrent(w, r);
    WhenNothingIsLost(w, r);
  }

  /** The copy kept is a block with a NUL: it is on disk, and cannot be read back. */
  lemma {:induction false} CopyCanBeUnreadable(rules: Rules, r: Request, t: Target, m: Mood, authorised: string,
                                               doc: Doc)
    returns (w: World)
    requires Proceeds(rules, r, t, m, authorised) && !m.changes && !m.saves && !AllText(m.block)
    ensures Starts(w, rules, authorised, doc)
    ensures var (v, outcome) := RestoreStep(w, r);
      outcome == CopyKept(StubbornRollback(m)) && v.copy.Some? && v.copy.value.BlockCopy? &&
      !Readable(v.copy.value) && !NothingLost(v, outcome)
  {
    w := StubbornKeepsCopy(rules, r, t, m, authorised, doc);
    KeptBlockReadsBack(w, r);
    WhenNothingIsLost(w, r);
  }
}
