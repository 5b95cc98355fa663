/**
 * What a checkpoint restore promises for every run of the engine, and the runs on which it promises less than it says.
 */
module RestorePromises {
  import opened Options
  import opened EncodedBlocks
  import opened RestoreWorld
  import opened CheckpointRestore
  import opened RestoreSteps
  import opened RestoreResults

  // ----- every run -----

  predicate Untouched(w: World) {
    w.changes == [] && w.userFile == FileState.Untouched && w.session == OnUserPath
  }

  /** What an outcome says about the world it leaves. */
  predicate Holds(r: Request, t: Target, v: World, outcome: Outcome) {
    match outcome
    case Refused => v.changes == []
    case Restored(evidence) =>
      Proves(v, r.pages, t.signature, Demand(t.undo, !t.undo && r.layout.DocumentFile?), evidence)
    case RolledBack(rollback, evidence) =>
      !t.undo && v.rules.complete(rollback.signature) &&
      Proves(v, rollback.pages, rollback.signature, Demand(false, rollback.usesFile), evidence)
    case OriginRestored(rollback, evidence) =>
      t.undo && v.rules.complete(rollback.signature) &&
      Proves(v, t.originPages, t.origin, Demand(true, false), evidence)
    case CopyKept(rollback) => Covers(v.copy, rollback, v.notes.taken)
  }

  /** Which legs have faulted in each outcome. */
  predicate Decided(w: World, r: Request, t: Target, v: World, outcome: Outcome) {
    var known := Reply(w, ReadPath).ok;
    var reachable := t.undo || Reachable(r.layout, known);
    match outcome
    case Refused => Prepare in v.faults || Unauthorisable(w)
    case Restored(_) => v.faults == {} && reachable
    case RolledBack(rollback, _) =>
      v.faults == When(reachable, Forward) && (rollback.usesFile ==> known) && rollback.pathKnown == known
    case OriginRestored(_, _) => v.faults == {Forward}
    case CopyKept(rollback) =>
      v.faults == When(reachable, Forward) + When(t.undo || (rollback.usesFile ==> known), Back)
  }

  /** What preparation has noted is what the first change meets, and stays so. */
  predicate Noted(w: World, v: World) {
    var w1 := PrepareStep(w).0;
    v.notes == w1.notes && Tracked(w1)
  }

  ghost predicate Runs(w: World, r: Request, t: Target, v: World, outcome: Outcome) {
    SameEnv(w, v) && Standing(v) && v.orderly && !(v.undone && v.replaced) &&
    (outcome.CopyKept? || v.copy == None) && !(outcome.Refused? && (Changed(v) || v.reopened)) &&
    Listed(v) && (!outcome.Refused? ==> v.notes.checked.Some? && (Changed(v) || outcome.CopyKept?)) &&
    (Unauthorisable(w) ==> outcome.Refused?) && Holds(r, t, v, outcome) && Decided(w, r, t, v, outcome)
  }

  /** The user's file and the session, by outcome. */
  predicate Placed(r: Request, t: Target, v: World, outcome: Outcome) {
    match outcome
    case Refused => Settled(v)
    case OriginRestored(_, _) => Settled(v) && OwnFile(v)
    case Restored(_) =>
      if t.undo || r.layout.EncodedBlock? then Settled(v) && OwnFile(v) else v.userFile == HoldsCheckpoint
    case RolledBack(rollback, _) =>
      if rollback.usesFile then v.userFile == HoldsRecovery
      else if r.layout.DocumentFile? && rollback.pathKnown then v.userFile in {HoldsCheckpoint, Uncertain}
      else v.userFile in {FileState.Untouched, SavedBack}
    case CopyKept(_) => true
  }

  /** The world after preparation, with a rollback that covers what was last copied. */
  ghost predicate Prepared(w: World, w1: World, rollback: Rollback) {
    SameEnv(w, w1) && AtTheStart(w1) && w1.changes == [] && !w1.reopened && Settled(w1) && Standing(w1) && Listed(w1) &&
    Ready(w1, rollback) && rollback.pathKnown == Reply(w, ReadPath).ok && !Unauthorisable(w)
  }

  /** Without a copy, unless the outcome keeps it. */
  function Swept(v: World, outcome: Outcome): World {
    if outcome.CopyKept? then v else v.(copy := None)
  }

  lemma {:induction false} UndoCase(w: World, w1: World, r: Request, t: Target, rollback: Rollback)
    requires Prepared(w, w1, rollback) && Sensible(w.rules) && Authorises(w.rules, t) && t.undo
    ensures var (v, outcome) := UndoStep(w1, r.pages, t, rollback);
      Runs(w, r, t, Swept(v, outcome), outcome) && Placed(r, t, v, outcome) && v.notes == w1.notes
  {
    UndoRuns(w1, r.pages, t, rollback);
    var (v, outcome) := UndoStep(w1, r.pages, t, rollback);
    UndoneHolds(w, w1, r, t, rollback, v, outcome);
  }

  lemma {:induction false} UndoneHolds(w: World, w1: World, r: Request, t: Target, rollback: Rollback, v: World,
                                       outcome: Outcome)
    requires Prepared(w, w1, rollback) && t.undo && UndoneAs(w1, r.pages, t, rollback, v, outcome)
    ensures Runs(w, r, t, Swept(v, outcome), outcome) && Placed(r, t, v, outcome) && v.notes == w1.notes
  {
    match outcome
    case Restored(_) =>
    case OriginRestored(_, _) =>
    case CopyKept(_) =>
  }

  lemma {:induction false} ReplaceCase(w: World, w1: World, r: Request, t: Target, rollback: Rollback)
    requires Prepared(w, w1, rollback) && Sensible(w.rules) && Authorises(w.rules, t) && !t.undo
    ensures var (v, outcome) := ReplaceStep(w1, r.layout, r.pages, t, rollback);
      Runs(w, r, t, Swept(v, outcome), outcome) && Placed(r, t, v, outcome) && v.notes == w1.notes
  {
    ReplaceRuns(w1, r.layout, r.pages, t, rollback);
    var (v, outcome) := ReplaceStep(w1, r.layout, r.pages, t, rollback);
    ReplacedHolds(w, w1, r, t, rollback, v, outcome);
  }

  lemma {:induction false} ReplacedHolds(w: World, w1: World, r: Request, t: Target, rollback: Rollback, v: World,
                                         outcome: Outcome)
    requires Prepared(w, w1, rollback) && !t.undo && ReplacedAs(w1, r.layout, r.pages, t, rollback, v, outcome)
    ensures Runs(w, r, t, Swept(v, outcome), outcome) && Placed(r, t, v, outcome) && v.notes == w1.notes
  {
    match outcome
    case Restored(_) =>
    case RolledBack(_, _) =>
    case CopyKept(_) =>
  }

  lemma {:induction false} RefusalCase(w: World, r: Request, t: Target, v: World)
    requires Begins(w) && Preparing(w, v, Prepare in v.faults) && Settled(v) && Standing(v)
    requires Prepare in v.faults || Unauthorisable(w)
    ensures Runs(w, r, t, Swept(v, Refused), Refused) && Placed(r, t, v, Refused)
  {
  }

  lemma {:induction false} ScratchRuns(w: World, r: Request, t: Target)
    requires Begins(w) && Sensible(w.rules) && Authorises(w.rules, t)
    ensures var (v, outcome) := ScratchStep(w, r.layout, r.pages, t);
      Runs(w, r, t, Swept(v, outcome), outcome) && Placed(r, t, v, outcome) && Noted(w, v)
  {
    PrepareRuns(w);
    var (w1, rollback) := PrepareStep(w);
    if rollback.None? {
      RefusalCase(w, r, t, w1);
    } else if t.undo {
      UndoCase(w, w1, r, t, rollback.value);
    } else {
      ReplaceCase(w, w1, r, t, rollback.value);
    }
  }

  /** Every run of a restore whose target is given. */
  lemma {:induction false} RestoreRuns(w: World, r: Request, t: Target)
    requires Begins(w) && Sensible(w.rules) && Wanted(w.rules, r) == Some(t)
    ensures var (v, outcome) := RestoreStep(w, r);
      Runs(w, r, t, v, outcome) && Placed(r, t, v, outcome) && Noted(w, v)
  {
    ScratchRuns(w, r, t);
  }

  // ----- which outcome -----

  /**
   * Which outcome a restore has. It is refused exactly for want of a target, of authority or of a favourable answer
   * in preparation; then it succeeds exactly when every answer that matters was favourable and a file to be restored
   * has a path to go to; then it is put back exactly when that succeeds; and otherwise the copy is kept.
   */
  lemma {:induction false} OutcomeDecided(w: World, r: Request)
    requires Begins(w) && Sensible(w.rules)
    ensures var (v, outcome) := RestoreStep(w, r);
      if Wanted(w.rules, r).None? then outcome.Refused? else AsDecided(w, r, Wanted(w.rules, r).value, v, outcome)
  {
    if Wanted(w.rules, r).Some? {
      var t := Wanted(w.rules, r).value;
      RestoreRuns(w, r, t);
      var (v, outcome) := RestoreStep(w, r);
      RunsAreDecided(w, r, t, v, outcome);
    }
  }

  predicate AsDecided(w: World, r: Request, t: Target, v: World, outcome: Outcome) {
    var known := Reply(w, ReadPath).ok;
    (outcome.Refused? <==> Unauthorisable(w) || Prepare in v.faults) &&
    (!outcome.Refused? ==>
       (outcome.Restored? <==> Forward !in v.faults && (t.undo || Reachable(r.layout, known))) &&
       (outcome.OriginRestored? <==> t.undo && Forward in v.faults && Back !in v.faults) &&
       (outcome.RolledBack? ==> !t.undo && Back !in v.faults && (outcome.rollback.usesFile ==> known)) &&
       (outcome.CopyKept? ==> Back in v.faults || (!t.undo && outcome.rollback.usesFile && !known)))
  }

  lemma {:induction false} RunsAreDecided(w: World, r: Request, t: Target, v: World, outcome: Outcome)
    requires Runs(w, r, t, v, outcome)
    ensures AsDecided(w, r, t, v, outcome)
  {
  }

  /** What is reported restored, rolled back or put back is proved by what was read after the last change. */
  lemma {:induction false} SuccessIsProved(w: World, r: Request, t: Target)
    requires Begins(w) && Sensible(w.rules) && Wanted(w.rules, r) == Some(t)
    ensures var (v, outcome) := RestoreStep(w, r); Holds(r, t, v, outcome)
  {
    RestoreRuns(w, r, t);
  }

  /** No change before identity, authority and a copy; and no run mixes history steps with replacements. */
  lemma {:induction false} ChangesAreOrderly(w: World, r: Request)
    requires Begins(w) && Sensible(w.rules)
    ensures var (v, outcome) := RestoreStep(w, r); v.orderly && !(v.undone && v.replaced)
  {
    if Wanted(w.rules, r).Some? {
      RestoreRuns(w, r, Wanted(w.rules, r).value);
    }
  }

  /**
   * A refusal has changed nothing of the document; it leaves file and session untouched exactly when the save of the
   * copy did not move the session.
   */
  lemma {:induction false} RefusalUntouched(w: World, r: Request)
    requires Begins(w) && Sensible(w.rules) && RestoreStep(w, r).1.Refused?
    ensures var v := RestoreStep(w, r).0; v.changes == [] && (Untouched(v) <==> !v.notes.moved)
  {
    if Wanted(w.rules, r).Some? {
      RestoreRuns(w, r, Wanted(w.rules, r).value);
    }
  }

  // ----- what is left of the document -----

  /** The copy is on disk exactly when it is kept; it is the document that was copied. */
  lemma {:induction false} CopyIsKept(w: World, r: Request)
    requires Begins(w) && Sensible(w.rules)
    ensures var (v, outcome) := RestoreStep(w, r);
      (v.copy.Some? <==> outcome.CopyKept?) && (outcome.CopyKept? ==> Covers(v.copy, outcome.rollback, v.notes.taken))
  {
    if Wanted(w.rules, r).Some? {
      RestoreRuns(w, r, Wanted(w.rules, r).value);
    }
  }

  /**
   * A kept copy is the document whose authority was checked exactly when no edit arrived between the copy and the
   * check, and the document that the first change met exactly when none arrived before that either.
   */
  lemma {:induction false} WhenCopyIsCurrent(w: World, r: Request)
    requires Begins(w) && Sensible(w.rules) && RestoreStep(w, r).1.CopyKept?
    ensures var v := RestoreStep(w, r).0;
      v.copy.Some? && v.notes.checked.Some? && Found(v) == PrepareStep(w).0.doc &&
      (v.copy.value.doc == v.notes.checked.value <==> v.notes.stale == 0) &&
      (v.copy.value.doc == Found(v) <==> v.notes.since == 0)
  {
    RestoreRuns(w, r, Wanted(w.rules, r).value);
  }

  /** A kept block gives the document's block back exactly when it holds no NUL and its signature fits a line. */
  lemma {:induction false} KeptBlockReadsBack(w: World, r: Request)
    requires Begins(w) && Sensible(w.rules)
    requires RestoreStep(w, r).1.CopyKept? && !RestoreStep(w, r).1.rollback.usesFile
    ensures var (v, outcome) := RestoreStep(w, r);
      var b := Block(outcome.rollback.block, outcome.rollback.signature);
      v.copy.Some? && v.copy.value.BlockCopy? && v.copy.value.doc == v.notes.taken && v.copy.value.block == b &&
      (ReadBack(v.copy.value.bytes) == Ok(b) <==> AllText(b.block) && LineSafe(b.signature))
  {
    CopyIsKept(w, r);
    var b := Block(RestoreStep(w, r).1.rollback.block, RestoreStep(w, r).1.rollback.signature);
    BlockRoundTrip(b);
  }

  lemma {:induction false} ContentOf(rules: Rules, read: Option<string>, expected: string, demand: Demand,
                                     evidence: Evidence)
    requires Supports(rules, read, expected, demand, evidence)
    ensures expected != "" ==> read.Some? && (evidence != PageCountOnly <==> read.value != "")
  {
  }

  /** A rollback is proved by content exactly when the signature read back is not empty. */
  lemma {:induction false} RollbackByContent(w: World, r: Request)
    requires Begins(w) && Sensible(w.rules) && RestoreStep(w, r).1.RolledBack?
    ensures var (v, outcome) := RestoreStep(w, r);
      v.copy == None && v.signature.Some? && (outcome.evidence != PageCountOnly <==> v.signature.value != "")
  {
    RestoreRuns(w, r, Wanted(w.rules, r).value);
    var (v, outcome) := RestoreStep(w, r);
    ContentOf(v.rules, v.signature, outcome.rollback.signature, Demand(false, outcome.rollback.usesFile),
              outcome.evidence);
  }

  /** A rollback leaves the user's file overwritten by the attempt exactly for a block after a document file. */
  lemma {:induction false} RollbackLeavesFile(w: World, r: Request)
    requires Begins(w) && Sensible(w.rules) && RestoreStep(w, r).1.RolledBack?
    ensures var (v, outcome) := RestoreStep(w, r);
      v.userFile in {HoldsCheckpoint, Uncertain} <==>
      r.layout.DocumentFile? && Reply(w, ReadPath).ok && !outcome.rollback.usesFile
  {
    RestoreRuns(w, r, Wanted(w.rules, r).value);
  }

  // ----- when nothing is lost -----

  /** The document found is live. */
  predicate Live(v: World) {
    v.changes == [] && v.doc == Found(v)
  }

  predicate Readable(c: Copy) {
    c.BlockCopy? ==> ReadBack(c.bytes) == Ok(c.block)
  }

  predicate OnDisk(v: World) {
    v.copy.Some? && v.copy.value.doc == Found(v) && Readable(v.copy.value)
  }

  /**
   * What was read last matches the signature that the document found was known by; a file that was opened again may
   * come back normalised. The signature is the document's own unless edits have arrived since the copy was taken.
   */
  predicate Matched(v: World, rollback: Rollback) {
    v.notes.since == 0 && SignatureRead(rollback.signature, v.signature) &&
    (v.rules.Same(rollback.signature, v.signature.value) ||
     (v.userFile == HoldsRecovery && v.rules.compare(rollback.signature, v.signature.value, true).matches))
  }

  /** The document found is live, or what is live matches it, or it is on disk. */
  predicate StillHad(v: World, outcome: Outcome) {
    Live(v) || OnDisk(v) || ((outcome.RolledBack? || outcome.OriginRestored?) && Matched(v, outcome.rollback))
  }

  /** The session stands on a file that exists. */
  predicate SessionStands(v: World) {
    v.session == OnUserPath || v.copy.Some?
  }

  /** The user's file is not left overwritten, unless by what was asked for or with a copy on disk. */
  predicate FileStands(v: World, outcome: Outcome) {
    v.userFile in {FileState.Untouched, SavedBack, HoldsRecovery} || v.copy.Some? ||
    (outcome.Restored? && v.userFile == HoldsCheckpoint)
  }

  /** What was asked for is there, proved by content, or the document found is still to be had; on files that exist. */
  predicate NothingLost(v: World, outcome: Outcome) {
    (if outcome.Restored? then outcome.evidence != PageCountOnly else StillHad(v, outcome)) &&
    SessionStands(v) && FileStands(v, outcome)
  }

  /** The save of the copy did not move the session, or it was moved back, or an open has landed since. */
  predicate BackInPlace(v: World) {
    !v.notes.moved || v.notes.returned || v.reopened
  }

  /** When that holds: by the answers that were given and the branch that was taken. */
  predicate KeptWhen(w: World, r: Request, v: World, outcome: Outcome) {
    match outcome
    case Refused => !v.notes.moved || (v.notes.returned && v.userFile == SavedBack)
    case Restored(_) => v.signature != Some("") && BackInPlace(v)
    case RolledBack(rollback, _) =>
      v.signature != Some("") && v.notes.since == 0 && BackInPlace(v) &&
      !(r.layout.DocumentFile? && rollback.pathKnown && !rollback.usesFile)
    case OriginRestored(rollback, _) =>
      Wanted(w.rules, r).Some? && w.rules.Same(Wanted(w.rules, r).value.origin, rollback.signature) &&
      v.notes.since == 0 && BackInPlace(v)
    case CopyKept(rollback) =>
      v.changes == [] ||
      (v.notes.since == 0 && (rollback.usesFile || (AllText(rollback.block) && LineSafe(rollback.signature))))
  }

  /** Nothing is lost exactly under that condition. */
  lemma {:induction false} WhenNothingIsLost(w: World, r: Request)
    requires Begins(w) && Sensible(w.rules) && Coherent(w.rules)
    ensures var (v, outcome) := RestoreStep(w, r); NothingLost(v, outcome) <==> KeptWhen(w, r, v, outcome)
    ensures Wanted(w.rules, r).Some? ==> Found(RestoreStep(w, r).0) == PrepareStep(w).0.doc
  {
    if Wanted(w.rules, r).Some? {
      var t := Wanted(w.rules, r).value;
      RestoreRuns(w, r, t);
      var (v, outcome) := RestoreStep(w, r);
      match outcome
      case Refused =>
      case Restored(_) => RestoredKeeps(w, r, t, v, outcome);
      case RolledBack(_, _) => RolledBackKeeps(w, r, t, v, outcome);
      case OriginRestored(_, _) => OriginKeeps(w, r, t, v, outcome);
      case CopyKept(_) => CopyKeeps(w, r, t, v, outcome);
    }
  }

  lemma {:induction false} RestoredKeeps(w: World, r: Request, t: Target, v: World, outcome: Outcome)
    requires Runs(w, r, t, v, outcome) && Placed(r, t, v, outcome) && outcome.Restored? && t.signature != ""
    ensures NothingLost(v, outcome) <==> KeptWhen(w, r, v, outcome)
  {
    ContentOf(v.rules, v.signature, t.signature, Demand(t.undo, !t.undo && r.layout.DocumentFile?), outcome.evidence);
  }

  lemma {:induction false} RolledBackKeeps(w: World, r: Request, t: Target, v: World, outcome: Outcome)
    requires Runs(w, r, t, v, outcome) && Placed(r, t, v, outcome) && outcome.RolledBack? && Sensible(w.rules)
    ensures NothingLost(v, outcome) <==> KeptWhen(w, r, v, outcome)
  {
    ContentOf(v.rules, v.signature, outcome.rollback.signature, Demand(false, outcome.rollback.usesFile),
              outcome.evidence);
  }

  lemma {:induction false} OriginKeeps(w: World, r: Request, t: Target, v: World, outcome: Outcome)
    requires Runs(w, r, t, v, outcome) && Placed(r, t, v, outcome) && outcome.OriginRestored? && Sensible(w.rules)
    requires Coherent(w.rules) && Wanted(w.rules, r) == Some(t)
    ensures NothingLost(v, outcome) <==> KeptWhen(w, r, v, outcome)
  {
    ContentOf(v.rules, v.signature, t.origin, Demand(true, false), outcome.evidence);
    assert w.rules.Same(t.origin, v.signature.value);
  }

  lemma {:induction false} CopyKeeps(w: World, r: Request, t: Target, v: World, outcome: Outcome)
    requires Runs(w, r, t, v, outcome) && outcome.CopyKept?
    ensures NothingLost(v, outcome) <==> KeptWhen(w, r, v, outcome)
  {
    if !outcome.rollback.usesFile {
      BlockRoundTrip(Block(outcome.rollback.block, outcome.rollback.signature));
    }
  }
}
