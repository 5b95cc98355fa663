/** What a whole checkpoint restore promises, and where it does not. */
module RestoreResults {
  import opened Options
  import opened EncodedBlocks
  import opened RestoreWorld
  import opened CheckpointRestore
  import opened RestoreSteps

  // ----- before the first change -----

  /** The document is the one last copied and what has arrived since; so was the one that was checked. */
  predicate Tracked(w: World) {
    w.doc == w.notes.taken + w.notes.since &&
    (w.notes.checked.Some? ==> w.notes.checked.value == w.notes.taken + w.notes.stale)
  }

  /** The restore has changed nothing; `failed` says whether it must be refused. */
  ghost predicate Preparing(w: World, v: World, failed: bool) {
    v == w.(calls := v.calls, doc := v.doc, notes := v.notes, session := v.session, userFile := v.userFile,
            copy := v.copy, identified := v.identified, pages := v.pages, signature := v.signature,
            faults := v.faults) &&
    v.faults == w.faults + When(failed, Prepare) && (Tracked(w) ==> Tracked(v)) && (Standing(w) ==> Standing(v))
  }

  /** File and session are untouched exactly as long as no save has moved the session. */
  predicate Settled(w: World) {
    (w.notes.moved <==> !(w.userFile == Untouched && w.session == OnUserPath)) &&
    w.userFile in {Untouched, SavedBack, Uncertain}
  }

  /** The user's file is as it was, or has the live document saved into it. */
  predicate OwnFile(w: World) {
    w.userFile == Untouched || w.userFile == SavedBack
  }

  /** Only a look, during which edits may have arrived. */
  predicate LookedAt(w: World, v: World) {
    v.notes == w.notes.(since := v.notes.since) && v.copy == w.copy && v.identified == w.identified && SamePlace(w, v)
  }

  /** No copy has been taken yet. */
  predicate Blank(w: World) {
    w.copy == None && w.notes.checked == None && !w.reopened
  }

  lemma {:induction false} Further(w: World, u: World, v: World, failed: bool)
    requires Preparing(w, u, false) && Preparing(u, v, failed)
    ensures Preparing(w, v, failed)
  {
  }

  lemma {:induction false} PathRead(w: World)
    ensures var v := Next(w, ReadPath); Preparing(w, v, false) && LookedAt(w, v)
  {
  }

  lemma {:induction false} PagesRead(w: World)
    ensures var v, read := Next(w, CountPages(Prepare, None)), Reply(w, CountPages(Prepare, None)).pages;
      Preparing(w, v, read.None?) && LookedAt(w, v)
  {
  }

  lemma {:induction false} SignatureTaken(w: World)
    ensures var v, text := Next(w, ReadSignature(Prepare, ForCopy)), Reply(w, ReadSignature(Prepare, ForCopy)).text;
      Preparing(w, v, !w.rules.complete(text)) && LookedAt(w, v)
  {
  }

  lemma {:induction false} BlockIsTaken(w: World)
    requires Blank(w)
    ensures var v := Next(w, CaptureBlock);
      Preparing(w, v, Reply(w, CaptureBlock).text == "") && SamePlace(w, v) && Blank(v) &&
      v.notes.moved == w.notes.moved &&
      v.notes.returned == w.notes.returned
  {
  }

  lemma {:induction false} MoveBackRuns(w: World)
    requires w.notes.moved && w.session == OnCopy
    ensures var (v, ok) := MoveBackStep(w);
      Preparing(w, v, !ok) && v.copy == w.copy && v.notes.taken == w.notes.taken &&
      v.notes.checked == w.notes.checked && v.notes.moved &&
      v.userFile in {SavedBack, Uncertain} && (ok ==> v.userFile == SavedBack && v.session == OnUserPath)
  {
    var w1 := Next(w, SaveBack);
    assert Preparing(w, w1, !Reply(w, SaveBack).ok) && w1.notes.taken == w.notes.taken;
  }

  lemma {:induction false} SaveCopyRuns(w: World)
    requires !w.notes.moved && !w.notes.returned && Settled(w) && Blank(w)
    ensures var v, a := Next(w, SaveCopy), Reply(w, SaveCopy);
      Preparing(w, v, false) && v.notes.moved == a.landed && (v.notes.moved <==> v.session == OnCopy) &&
      v.userFile == Untouched &&
      v.notes.checked == None && v.copy == (if a.ok then Some(FileCopy(v.notes.taken)) else None)
  {
  }

  /** Whether a capture to a file makes the restore impossible. */
  predicate Hopeless(rules: Rules, capture: FileCapture) {
    capture.Failed? || (capture.Written? && !rules.complete(capture.signature))
  }

  /** After a capture to a file: its copy is of the document last taken, and nothing else has been copied or checked. */
  predicate FileCaptured(v: World, capture: FileCapture) {
    Settled(v) && (!capture.Failed? ==> OwnFile(v)) && v.notes.checked == None && !v.reopened &&
    v.copy == if capture.Written? then Some(FileCopy(v.notes.taken)) else None
  }

  lemma {:induction false} CaptureFileRuns(w: World)
    requires !w.notes.moved && !w.notes.returned && Settled(w) && Blank(w)
    ensures var (v, capture) := CaptureFileStep(w);
      Preparing(w, v, Hopeless(w.rules, capture)) && FileCaptured(v, capture)
  {
    PathRead(w);
    var w1 := Next(w, ReadPath);
    if !Reply(w, ReadPath).ok { return; }
    SaveCopyRuns(w1);
    var w2, saved := Next(w1, SaveCopy), Reply(w1, SaveCopy).ok;
    Further(w, w1, w2, false);
    PathRead(w2);
    var w3 := Next(w2, ReadPath);
    Further(w, w2, w3, false);
    SettleRuns(w, w3, saved, SeenMoved(w2, Reply(w2, ReadPath)));
  }

  /** A save that has been seen to move the session is followed by one that moves it back. */
  lemma {:induction false} BackRuns(w: World, w3: World, saved: bool, seen: bool)
    requires Preparing(w, w3, false) && (w3.notes.moved <==> w3.session == OnCopy) && (seen ==> w3.session == OnCopy)
    requires w3.userFile == Untouched && w3.notes.checked == None
    requires w3.copy == if saved then Some(FileCopy(w3.notes.taken)) else None
    ensures
      var (w4, inPlace) := if seen then MoveBackStep(w3) else (w3, true);
      Preparing(w, w4, !inPlace) && Settled(w4) && w4.copy == w3.copy && w4.notes.taken == w3.notes.taken &&
      w4.notes.checked == None && (inPlace ==> OwnFile(w4))
  {
    if seen {
      MoveBackRuns(w3);
      var (w4, inPlace) := MoveBackStep(w3);
      Further(w, w3, w4, !inPlace);
    }
  }

  lemma {:induction false} SettleRuns(w: World, w3: World, saved: bool, seen: bool)
    requires Preparing(w, w3, false) && (w3.notes.moved <==> w3.session == OnCopy) && (seen ==> w3.session == OnCopy)
    requires w3.userFile == Untouched && w3.notes.checked == None && !w3.reopened
    requires w3.copy == if saved then Some(FileCopy(w3.notes.taken)) else None
    ensures var (v, capture) := SettleStep(w3, saved, seen);
      Preparing(w, v, Hopeless(w.rules, capture)) && FileCaptured(v, capture)
  {
    BackRuns(w, w3, saved, seen);
    var (w4, inPlace) := if seen then MoveBackStep(w3) else (w3, true);
    if inPlace && saved {
      WrittenRuns(w, w4);
    } else {
      DroppedRuns(w, w4, inPlace);
    }
  }

  lemma {:induction false} WrittenRuns(w: World, w4: World)
    requires Preparing(w, w4, false) && Settled(w4) && OwnFile(w4) && w4.notes.checked == None && !w4.reopened
    requires w4.copy == Some(FileCopy(w4.notes.taken))
    ensures var v, text := Next(w4, ReadSignature(Prepare, ForCopy)), Reply(w4, ReadSignature(Prepare, ForCopy)).text;
      Preparing(w, v, Hopeless(w.rules, Written(text))) && FileCaptured(v, Written(text))
  {
    SignatureTaken(w4);
    var read := ReadSignature(Prepare, ForCopy);
    Further(w, w4, Next(w4, read), !w.rules.complete(Reply(w4, read).text));
  }

  lemma {:induction false} DroppedRuns(w: World, w4: World, inPlace: bool)
    requires Preparing(w, w4, !inPlace) && Settled(w4) && (inPlace ==> OwnFile(w4))
    requires w4.notes.checked == None && !w4.reopened
    ensures var v, capture := w4.(copy := None), if inPlace then Unavailable else Failed;
      Preparing(w, v, Hopeless(w.rules, capture)) && FileCaptured(v, capture)
  {
  }

  lemma {:induction false} StoreRuns(w: World, b: Block)
    requires Blank(w)
    ensures var v, ok := Next(w, StoreBlock(b)), Reply(w, StoreBlock(b)).ok && Saved(b).Ok?;
      Preparing(w, v, !ok) && SamePlace(w, v) && v.notes.moved == w.notes.moved &&
      v.notes.returned == w.notes.returned && v.notes.checked == None &&
      v.notes.taken == w.notes.taken && v.copy == if ok then Some(BlockCopy(v.notes.taken, b, Saved(b).value)) else None
  {
  }

  /** A rollback that can be used; one without a complete signature cannot. */
  predicate Usable(rules: Rules, rollback: Option<Rollback>) {
    rollback.Some? && rules.complete(rollback.value.signature)
  }

  /** The copy on disk is the document `doc` that the rollback would bring back. */
  predicate Covers(copy: Option<Copy>, rollback: Rollback, doc: Doc) {
    if rollback.usesFile then copy == Some(FileCopy(doc))
    else
      var b := Block(rollback.block, rollback.signature);
      Saved(b).Ok? && copy == Some(BlockCopy(doc, b, Saved(b).value))
  }

  lemma {:induction false} CaptureBlockRuns(w: World, pathKnown: bool)
    requires Blank(w)
    ensures var (v, rollback) := CaptureBlockStep(w, pathKnown);
      Preparing(w, v, !Usable(w.rules, rollback)) && SamePlace(w, v) && v.notes.moved == w.notes.moved &&
      v.notes.checked == None &&
      (rollback.Some? ==> Covers(v.copy, rollback.value, v.notes.taken) && rollback.value.pathKnown == pathKnown)
  {
    BlockIsTaken(w);
    var w1, block := Next(w, CaptureBlock), Reply(w, CaptureBlock).text;
    if block == "" { return; }
    var read := ReadSignature(Prepare, ForCopy);
    SignatureTaken(w1);
    var w2, signature := Next(w1, read), Reply(w1, read).text;
    Further(w, w1, w2, !w.rules.complete(signature));
    CountAndStore(w, w2, block, signature);
  }

  /** The rest of a block capture, once block and signature have been read. */
  lemma {:induction false} CountAndStore(w: World, w2: World, block: string, signature: string)
    requires Blank(w2) && SamePlace(w, w2) && w2.notes.moved == w.notes.moved
    requires Preparing(w, w2, !w.rules.complete(signature))
    ensures
      var w3, pages := Next(w2, CountPages(Prepare, None)), Reply(w2, CountPages(Prepare, None)).pages;
      var b := Block(block, signature);
      var v, ok := Next(w3, StoreBlock(b)), Reply(w3, StoreBlock(b)).ok && Saved(b).Ok?;
      Preparing(w, w3, pages.None? || !w.rules.complete(signature)) && SamePlace(w, w3) &&
      w3.notes.moved == w.notes.moved &&
      w3.notes.checked == None && v.notes.checked == None &&
      (pages.Some? ==>
         Preparing(w, v, !ok || !w.rules.complete(signature)) && SamePlace(w, v) &&
         v.notes.moved == w.notes.moved) &&
      (ok ==> v.copy == Some(BlockCopy(v.notes.taken, b, Saved(b).value)))
  {
    PagesRead(w2);
    StoreRuns(Next(w2, CountPages(Prepare, None)), Block(block, signature));
  }

  lemma {:induction false} RollbackRuns(w: World, w2: World, capture: FileCapture, pathKnown: bool)
    requires Preparing(w, w2, Hopeless(w.rules, capture)) && FileCaptured(w2, capture)
    ensures var (v, rollback) := RollbackStep(w2, capture, pathKnown);
      Preparing(w, v, !Usable(w.rules, rollback)) && Settled(v) && v.notes.checked == None &&
      (rollback.Some? ==>
         Covers(v.copy, rollback.value, v.notes.taken) && rollback.value.pathKnown == pathKnown && OwnFile(v))
  {
    if capture.Unavailable? {
      BlockRollback(w, w2, pathKnown);
    } else if capture.Written? {
      PagesRead(w2);
    }
  }

  lemma {:induction false} BlockRollback(w: World, w2: World, pathKnown: bool)
    requires Preparing(w, w2, false) && FileCaptured(w2, Unavailable)
    ensures var (v, rollback) := CaptureBlockStep(w2, pathKnown);
      Preparing(w, v, !Usable(w.rules, rollback)) && Settled(v) && v.notes.checked == None &&
      (rollback.Some? ==>
         Covers(v.copy, rollback.value, v.notes.taken) && rollback.value.pathKnown == pathKnown && OwnFile(v))
  {
    CaptureBlockRuns(w2, pathKnown);
    var (v, rollback) := CaptureBlockStep(w2, pathKnown);
    Further(w, w2, v, !Usable(w.rules, rollback));
  }

  /** The capture of what was found: a usable rollback and a copy that covers it, or a refusal. */
  lemma {:induction false} CaptureRuns(w: World)
    requires !w.notes.moved && !w.notes.returned && Settled(w) && Blank(w)
    ensures var (v, rollback) := CaptureStep(w);
      Preparing(w, v, !Usable(w.rules, rollback)) && Settled(v) && v.notes.checked == None &&
      (rollback.Some? ==>
         Covers(v.copy, rollback.value, v.notes.taken) && rollback.value.pathKnown == Reply(w, ReadPath).ok &&
         OwnFile(v))
  {
    PathRead(w);
    var w1 := Next(w, ReadPath);
    CaptureFileRuns(w1);
    var (w2, capture) := CaptureFileStep(w1);
    Further(w, w1, w2, Hopeless(w.rules, capture));
    RollbackRuns(w, w2, capture, Reply(w, ReadPath).ok);
  }

  /** A signature to authorise against that is there and malformed refuses everything. */
  predicate Unauthorisable(w: World) {
    w.authorised != "" && !w.rules.complete(w.authorised)
  }

  lemma {:induction false} AuthorizeRuns(w: World)
    requires w.copy.Some? && Prepare !in w.faults && w.notes.checked == None
    ensures var (v, ok) := AuthorizeStep(w);
      Preparing(w, v, Prepare in v.faults) && Authorised(w, v, ok)
  {
    IdentifyRuns(w);
    var w1 := Next(w, Identify);
    if Reply(w, Identify).ok {
      AuthorityRuns(w, w1);
    }
  }

  /** What authorisation leaves, and when it is given. */
  ghost predicate Authorised(w: World, v: World, ok: bool) {
    SamePlace(w, v) && v.copy == w.copy && v.notes.taken == w.notes.taken && v.notes.moved == w.notes.moved &&
    v.notes.returned == w.notes.returned && (ok <==> Prepare !in v.faults && !Unauthorisable(w)) &&
    (ok ==> MayChange(v) && v.notes.checked.Some?)
  }

  /** Identity is checked; then the signature, if the caller has given one. */
  lemma {:induction false} AuthorityRuns(w: World, u: World)
    requires Preparing(w, u, false) && SameButChecked(w, u) && u.identified && w.copy.Some? && Prepare !in w.faults
    ensures var (v, ok) := AuthorityStep(u);
      Preparing(w, v, Prepare in v.faults) && Authorised(w, v, ok)
  {
    if u.authorised != "" && u.rules.complete(u.authorised) {
      SignatureChecked(u);
      var read := ReadSignature(Prepare, ForAuthority);
      CheckedTwice(w, u, Next(u, read), Reply(u, read).text);
    }
  }

  /** After identity and signature have been checked, the document may be changed unless the signature is another. */
  lemma {:induction false} CheckedTwice(w: World, u: World, v: World, text: string)
    requires Preparing(w, u, false) && SameButChecked(w, u) && u.identified && w.copy.Some? && Prepare !in w.faults
    requires Preparing(u, v, !Acceptable(u, ForAuthority, text)) && SameButChecked(u, v) && v.identified
    requires w.authorised != "" && w.rules.complete(w.authorised) && v.signature == Some(text)
    ensures Preparing(w, v, Prepare in v.faults) && Authorised(w, v, Acceptable(u, ForAuthority, text))
  {
    Further(w, u, v, !Acceptable(u, ForAuthority, text));
  }

  /** What a check of authority leaves. */
  predicate SameButChecked(w: World, v: World) {
    SamePlace(w, v) && v.copy == w.copy && v.notes.taken == w.notes.taken && v.notes.moved == w.notes.moved &&
    v.notes.returned == w.notes.returned &&
    v.notes.checked == Some(w.doc) && v.notes.stale == w.notes.since
  }

  lemma {:induction false} IdentifyRuns(w: World)
    ensures var v, ok := Next(w, Identify), Reply(w, Identify).ok;
      Preparing(w, v, !ok) && SameButChecked(w, v) && v.identified == ok
  {
  }

  lemma {:induction false} SignatureChecked(w: World)
    ensures var v, text := Next(w, ReadSignature(Prepare, ForAuthority)),
                           Reply(w, ReadSignature(Prepare, ForAuthority)).text;
      Preparing(w, v, !Acceptable(w, ForAuthority, text)) && SameButChecked(w, v) && v.identified == w.identified &&
      v.signature == Some(text)
  {
  }

  ghost predicate Begins(w: World) {
    w == Fresh(w.script, w.rules, w.authorised, w.doc)
  }

  lemma {:induction false} PrepareRuns(w: World)
    requires Begins(w)
    ensures var (v, rollback) := PrepareStep(w);
      Preparing(w, v, Prepare in v.faults) && Settled(v) && Tracked(v) && Standing(v) &&
      (rollback.Some? <==> Prepare !in v.faults && !Unauthorisable(w)) &&
      (rollback.Some? ==> Ready(v, rollback.value) && rollback.value.pathKnown == Reply(w, ReadPath).ok)
  {
    CaptureRuns(w);
    var (w1, rollback) := CaptureStep(w);
    if Usable(w.rules, rollback) {
      AuthorizeRuns(w1);
      var (v, ok) := AuthorizeStep(w1);
      Further(w, w1, v, Prepare in v.faults);
    }
  }

  /** The document may be changed, and there is a usable rollback whose copy covers what was last copied. */
  predicate Ready(w: World, rollback: Rollback) {
    MayChange(w) && w.rules.complete(rollback.signature) && Covers(w.copy, rollback, w.notes.taken) && OwnFile(w) &&
    w.notes.checked.Some?
  }

  // ----- after it -----

  /** What no step after preparation changes. */
  ghost predicate Keeps(w: World, v: World) {
    SameEnv(w, v) && SameRecord(w, v) && (Standing(w) ==> Standing(v)) && (Listed(w) ==> Listed(v))
  }

  /** Nothing has been changed yet, and nothing stands in the way. */
  predicate AtTheStart(w: World) {
    !Changed(w) && MayChange(w) && w.orderly && w.faults == {}
  }

  ghost predicate Undoing(w: World, v: World, faults: set<Leg>) {
    Keeps(w, v) && SamePlace(w, v) && v.undone && !v.replaced && v.orderly && v.changes != [] &&
    v.faults == w.faults + faults
  }

  lemma {:induction false} HistoryRuns(w: World, leg: Leg, c: Change)
    requires IsHistory(c) && !w.replaced && (w.undone || MayChange(w)) && w.orderly
    ensures Undoing(w, Next(w, Do(leg, c)), Fault(w, Do(leg, c), Reply(w, Do(leg, c))))
  {
  }

  lemma {:induction false} HistoryLook(w: World, u: World, c: Call, faults: set<Leg>)
    requires Undoing(w, u, faults) && (c.Glance? || c.Observe?)
    ensures Undoing(w, Next(u, c), faults + if c.Observe? then When(!Reply(u, c).ok, c.leg) else {})
  {
  }

  lemma {:induction false} HistoryVerify(w: World, u: World, faults: set<Leg>, leg: Leg, pages: int, signature: string)
    requires leg != Prepare && Undoing(w, u, faults) && signature != ""
    ensures var (v, evidence) := VerifyStep(u, leg, pages, signature, Demand(true, false));
      Undoing(w, v, faults + When(evidence == NoEvidence, leg)) &&
      (evidence != NoEvidence ==> Proves(v, pages, signature, Demand(true, false), evidence))
  {
    VerifyRuns(u, leg, pages, signature, Demand(true, false));
  }

  lemma {:induction false} RedoRuns(w: World, u: World, target: Target, rollback: Rollback)
    requires Undoing(w, u, {Forward}) && target.origin != ""
    ensures var (v, outcome) := RedoStep(u, target, rollback);
      match outcome
      case OriginRestored(r, evidence) =>
        Undoing(w, v, {Forward}) && r == rollback &&
        Proves(v, target.originPages, target.origin, Demand(true, false), evidence)
      case CopyKept(r) => Undoing(w, v, {Forward, Back}) && r == rollback
      case _ => false
  {
    HistoryRuns(u, Back, Redo);
    var w1 := Next(u, Do(Back, Redo));
    if !Reply(u, Do(Back, Redo)).ok { return; }
    HistoryLook(w, w1, Observe(Back), {Forward});
    var w2 := Next(w1, Observe(Back));
    if !Reply(w1, Observe(Back)).ok { return; }
    HistoryVerify(w, w2, {Forward}, Back, target.originPages, target.origin);
  }

  /** One Undo, and one Redo if it missed: which outcome is decided by the legs that faulted. */
  ghost predicate UndoneAs(w: World, pages: int, target: Target, rollback: Rollback, v: World, outcome: Outcome) {
    match outcome
    case Restored(evidence) =>
      Undoing(w, v, {}) && Proves(v, pages, target.signature, Demand(true, false), evidence)
    case OriginRestored(r, evidence) =>
      Undoing(w, v, {Forward}) && r == rollback &&
      Proves(v, target.originPages, target.origin, Demand(true, false), evidence)
    case CopyKept(r) => Undoing(w, v, {Forward, Back}) && r == rollback
    case _ => false
  }

  lemma {:induction false} UndoRuns(w: World, pages: int, target: Target, rollback: Rollback)
    requires AtTheStart(w) && target.signature != "" && target.origin != ""
    ensures var (v, outcome) := UndoStep(w, pages, target, rollback);
      UndoneAs(w, pages, target, rollback, v, outcome)
  {
    HistoryRuns(w, Forward, Undo);
    var w1 := Next(w, Do(Forward, Undo));
    if !Reply(w, Do(Forward, Undo)).ok { return; }
    HistoryLook(w, w1, Glance, {});
    var w2 := Next(w1, Glance);
    HistoryLook(w, w2, Observe(Forward), {});
    var w3 := Next(w2, Observe(Forward));
    if !Reply(w2, Observe(Forward)).ok {
      RedoRuns(w, w3, target, rollback);
      return;
    }
    HistoryLook(w, w3, Glance, {});
    var w4 := Next(w3, Glance);
    HistoryVerify(w, w4, {}, Forward, pages, target.signature);
    var (w5, evidence) := VerifyStep(w4, Forward, pages, target.signature, Demand(true, false));
    if evidence == NoEvidence {
      RedoRuns(w, w5, target, rollback);
    }
  }

  /** A document file can be restored only to a path that is known. */
  predicate Reachable(layout: Layout, pathKnown: bool) {
    layout.DocumentFile? ==> pathKnown
  }

  /** What the user's file may hold after an attempt at a checkpoint. */
  function FileAfterAttempt(layout: Layout, pathKnown: bool, before: FileState): set<FileState> {
    if layout.DocumentFile? && pathKnown then {HoldsCheckpoint, Uncertain} else {before}
  }

  lemma {:induction false} AttemptRuns(w: World, layout: Layout, pages: int, target: Target, pathKnown: bool)
    requires AtTheStart(w) && target.signature != ""
    ensures var (v, evidence, _) := AttemptStep(w, layout, pages, target, pathKnown);
      Replacing(w, v, Forward, evidence == NoEvidence && Reachable(layout, pathKnown)) &&
      (evidence != NoEvidence ==> Reachable(layout, pathKnown)) &&
      v.userFile in FileAfterAttempt(layout, pathKnown, w.userFile) &&
      (evidence != NoEvidence ==>
         v.replaced && v.userFile == (if layout.DocumentFile? then HoldsCheckpoint else w.userFile) &&
         (layout.EncodedBlock? ==> v.session == w.session) &&
         Proves(v, pages, target.signature, Demand(false, layout.DocumentFile?), evidence))
  {
    if layout.EncodedBlock? {
      BlockRuns(w, Forward, pages, target.signature);
    } else if pathKnown {
      ReopenRuns(w, Forward, FromCheckpoint, pages, target.signature, true);
    }
  }

  /** What the user's file holds after a rollback that is proved. */
  function FileAfterRollback(layout: Layout, rollback: Rollback, before: FileState): set<FileState> {
    if rollback.usesFile then {HoldsRecovery} else FileAfterAttempt(layout, rollback.pathKnown, before)
  }

  lemma {:induction false} GoBackRuns(w: World, rollback: Rollback, clear: bool)
    requires rollback.signature != ""
    ensures var (v, evidence) := GoBackStep(w, rollback, clear);
      var possible := rollback.usesFile ==> rollback.pathKnown;
      Replacing(w, v, Back, evidence == NoEvidence && possible) && (evidence != NoEvidence ==> possible) &&
      (evidence != NoEvidence ==>
         v.replaced && v.userFile == (if rollback.usesFile then HoldsRecovery else w.userFile) &&
         Proves(v, rollback.pages, rollback.signature, Demand(false, rollback.usesFile), evidence))
  {
    if !rollback.usesFile {
      BlockRuns(w, Back, rollback.pages, rollback.signature);
    } else if rollback.pathKnown {
      ReopenRuns(w, Back, FromRecovery, rollback.pages, rollback.signature, clear);
    }
  }

  ghost predicate Replaced(w: World, v: World, faults: set<Leg>) {
    Keeps(w, v) && !v.undone && v.orderly && v.faults == faults
  }

  /** Restore, then at most one rollback: which outcome is decided by the legs that faulted and the path. */
  ghost predicate ReplacedAs(w: World, layout: Layout, pages: int, target: Target, rollback: Rollback, v: World,
                             outcome: Outcome)
  {
    var reachable, possible := Reachable(layout, rollback.pathKnown), rollback.usesFile ==> rollback.pathKnown;
    match outcome
    case Restored(evidence) =>
      Replaced(w, v, {}) && reachable && v.replaced &&
      v.userFile == (if layout.DocumentFile? then HoldsCheckpoint else w.userFile) &&
      (layout.EncodedBlock? ==> v.session == w.session) &&
      Proves(v, pages, target.signature, Demand(false, layout.DocumentFile?), evidence)
    case RolledBack(back, evidence) =>
      Replaced(w, v, When(reachable, Forward)) && possible && v.replaced && back == rollback &&
      v.userFile in FileAfterRollback(layout, rollback, w.userFile) &&
      Proves(v, rollback.pages, rollback.signature, Demand(false, rollback.usesFile), evidence)
    case CopyKept(back) =>
      Replaced(w, v, When(reachable, Forward) + When(possible, Back)) && back == rollback
    case _ => false
  }

  /** The rollback after an attempt that proved nothing. */
  lemma {:induction false} RollbackCase(w: World, w1: World, layout: Layout, pages: int, target: Target,
                                        rollback: Rollback, clear: bool)
    requires AtTheStart(w) && rollback.signature != ""
    requires Replacing(w, w1, Forward, Reachable(layout, rollback.pathKnown))
    requires w1.userFile in FileAfterAttempt(layout, rollback.pathKnown, w.userFile)
    ensures var (v, back) := GoBackStep(w1, rollback, clear);
      ReplacedAs(w, layout, pages, target, rollback, v,
                 if back != NoEvidence then RolledBack(rollback, back) else CopyKept(rollback))
  {
    GoBackRuns(w1, rollback, clear);
    var (v, back) := GoBackStep(w1, rollback, clear);
    if back != NoEvidence {
      BackProved(w, w1, layout, pages, target, rollback, v, back);
    }
  }

  lemma {:induction false} BackProved(w: World, w1: World, layout: Layout, pages: int, target: Target,
                                      rollback: Rollback, v: World, back: Evidence)
    requires AtTheStart(w) && Replacing(w, w1, Forward, Reachable(layout, rollback.pathKnown))
    requires w1.userFile in FileAfterAttempt(layout, rollback.pathKnown, w.userFile)
    requires Replacing(w1, v, Back, false) && v.replaced && (rollback.usesFile ==> rollback.pathKnown)
    requires v.userFile == if rollback.usesFile then HoldsRecovery else w1.userFile
    requires Proves(v, rollback.pages, rollback.signature, Demand(false, rollback.usesFile), back)
    ensures ReplacedAs(w, layout, pages, target, rollback, v, RolledBack(rollback, back))
  {
  }

  lemma {:induction false} ReplaceRuns(w: World, layout: Layout, pages: int, target: Target, rollback: Rollback)
    requires AtTheStart(w) && target.signature != "" && rollback.signature != ""
    ensures var (v, outcome) := ReplaceStep(w, layout, pages, target, rollback);
      ReplacedAs(w, layout, pages, target, rollback, v, outcome)
  {
    AttemptRuns(w, layout, pages, target, rollback.pathKnown);
    var (w1, evidence, clearFailed) := AttemptStep(w, layout, pages, target, rollback.pathKnown);
    if evidence == NoEvidence {
      RollbackCase(w, w1, layout, pages, target, rollback, !clearFailed);
    }
  }
}
