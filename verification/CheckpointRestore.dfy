/** Replacing the live document by a checkpoint, and putting it back when that fails. */
module CheckpointRestore {
  import opened Options
  import opened EncodedBlocks
  import opened CheckpointMeta
  import opened RestoreWorld

  // ----- proving what the document is -----

  function VerifyStep(w: World, leg: Leg, expectedPages: int, expected: string, demand: Demand): (World, Evidence) {
    var count := CountPages(leg, Some(expectedPages));
    var w1 := Next(w, count);
    if Reply(w, count).pages != Some(expectedPages) then (w1, NoEvidence)
    else if expected == "" then (w1, if demand.requireContent then NoEvidence else PageCountOnly)
    else
      var read := ReadSignature(leg, ForProof(expected, demand));
      (Next(w1, read), Judge(w.rules, expected, Reply(w1, read).text, demand))
  }

  /** Reads the restored document and decides what, if anything, proves it to be the expected one. */
  method VerifyRestoredDocument(e: Engine, leg: Leg, expectedPages: int, expected: string, demand: Demand)
    returns (evidence: Evidence)
    modifies e
    ensures (e.world, evidence) == VerifyStep(old(e.world), leg, expectedPages, expected, demand)
  {
    var count := e.Ask(CountPages(leg, Some(expectedPages)));
    if count.pages != Some(expectedPages) {
      return NoEvidence;
    }
    if expected == "" {
      return if demand.requireContent then NoEvidence else PageCountOnly;
    }
    var read := e.Ask(ReadSignature(leg, ForProof(expected, demand)));
    evidence := Judge(e.world.rules, expected, read.text, demand);
  }

  // ----- a block restore -----

  /** Finds and deletes the body, if there is any. */
  function DeleteBodyStep(w: World, leg: Leg): (World, bool) {
    var w1, ends := Next(w, Ends(leg)), Reply(w, Ends(leg));
    if !ends.ok then (w1, false)
    else if ends.same then (w1, true)
    else RemoveBodyStep(w1, leg)
  }

  function RemoveBodyStep(w: World, leg: Leg): (World, bool) {
    var w1 := Next(w, Observe(leg));
    if !Reply(w, Observe(leg)).ok then (w1, false)
    else (Next(w1, Do(leg, ClearBody)), Reply(w1, Do(leg, ClearBody)).ok)
  }

  /** Checks that nothing but paragraph breaks is left. */
  function CheckEmptyStep(w: World, leg: Leg): (World, bool) {
    var w1, ends := Next(w, Ends(leg)), Reply(w, Ends(leg));
    if !ends.ok then (w1, false)
    else if ends.same then (Next(w1, Observe(leg)), Reply(w1, Observe(leg)).ok)
    else ResidueStep(w1, leg)
  }

  function ResidueStep(w: World, leg: Leg): (World, bool) {
    var w1 := Next(w, Residue(leg));
    if !Reply(w, Residue(leg)).ok then (w1, false)
    else (Next(w1, Observe(leg)), Reply(w1, Observe(leg)).ok)
  }

  function ClearBodyStep(w: World, leg: Leg): (World, bool) {
    var (w1, deleted) := DeleteBodyStep(w, leg);
    if !deleted then (w1, false) else CheckEmptyStep(w1, leg)
  }

  method ClearDocumentBody(e: Engine, leg: Leg) returns (ok: bool)
    modifies e
    ensures (e.world, ok) == ClearBodyStep(old(e.world), leg)
  {
    var ends := e.Ask(Ends(leg));
    if !ends.ok {
      return false;
    }
    if !ends.same {
      var selected := e.Ask(Observe(leg));
      if !selected.ok {
        return false;
      }
      var deleted := e.Ask(Do(leg, ClearBody));
      if !deleted.ok {
        return false;
      }
    }
    ends := e.Ask(Ends(leg));
    if !ends.ok {
      return false;
    }
    if !ends.same {
      var breaks := e.Ask(Residue(leg));
      if !breaks.ok {
        return false;
      }
    }
    var moved := e.Ask(Observe(leg));
    ok := moved.ok;
  }

  function InsertStep(w: World, leg: Leg): (World, bool) {
    var w1 := Next(w, Do(leg, InsertBlock));
    if !Reply(w, Do(leg, InsertBlock)).ok then (w1, false)
    else (Next(w1, Observe(leg)), Reply(w1, Observe(leg)).ok)
  }

  function BlockStep(w: World, leg: Leg, pages: int, signature: string): (World, Evidence) {
    var (w1, cleared) := ClearBodyStep(w, leg);
    if !cleared then (w1, NoEvidence) else FillStep(w1, leg, pages, signature)
  }

  /** Inserts the block into the empty body and looks at what has become of it. */
  function FillStep(w: World, leg: Leg, pages: int, signature: string): (World, Evidence) {
    var (w1, inserted) := InsertStep(w, leg);
    if !inserted then (w1, NoEvidence) else VerifyStep(w1, leg, pages, signature, Demand(false, false))
  }

  /** Empties the body and inserts an encoded block. */
  method ReplaceDocumentBlock(e: Engine, leg: Leg, pages: int, signature: string) returns (evidence: Evidence)
    modifies e
    ensures (e.world, evidence) == BlockStep(old(e.world), leg, pages, signature)
  {
    var cleared := ClearDocumentBody(e, leg);
    if !cleared {
      return NoEvidence;
    }
    var inserted := e.Ask(Do(leg, InsertBlock));
    if !inserted.ok {
      return NoEvidence;
    }
    var moved := e.Ask(Observe(leg));
    if !moved.ok {
      return NoEvidence;
    }
    evidence := VerifyRestoredDocument(e, leg, pages, signature, Demand(false, false));
  }

  // ----- a file restore -----

  /** Replaces the user's file and opens it at its own path. */
  function OpenStep(w: World, leg: Leg, source: Source): (World, bool) {
    var copy := Do(leg, CopyOver(source));
    var w1 := Next(w, copy);
    if !Reply(w, copy).ok then (w1, false)
    else
      var w2 := Next(w1, Do(leg, Open));
      if !Reply(w1, Do(leg, Open)).ok then (w2, false) else ArriveStep(w2, leg)
  }

  /** Checks that the session is where it should be, and takes the document to be known again. */
  function ArriveStep(w: World, leg: Leg): (World, bool) {
    var w1, path := Next(w, CheckPath(leg)), Reply(w, CheckPath(leg));
    if !path.ok || w.session != OnUserPath then (w1, false)
    else (Next(w1, Observe(leg)), Reply(w1, Observe(leg)).ok)
  }

  /** With `clear` the document slot is emptied first; a slot that cannot be emptied is opened over. */
  function ReopenStep(w: World, leg: Leg, source: Source, pathKnown: bool, pages: int, signature: string, clear: bool)
    : (World, Evidence, bool)
  {
    if !pathKnown then (w, NoEvidence, false)
    else
      var w1, failed := if clear then Next(w, Do(leg, Clear)) else w, clear && !Reply(w, Do(leg, Clear)).ok;
      var (w2, isOpen) := OpenStep(w1, leg, source);
      if !isOpen then (w2, NoEvidence, failed)
      else
        var (w3, evidence) := VerifyStep(w2, leg, pages, signature, Demand(false, true));
        (w3, evidence, failed)
  }

  /** Replaces the bytes of the user's file and opens it again in the same document slot. */
  method RestoreDocumentFileByReopen(e: Engine, leg: Leg, source: Source, pathKnown: bool, pages: int,
                                     signature: string, clear: bool)
    returns (evidence: Evidence, clearFailed: bool)
    modifies e
    ensures (e.world, evidence, clearFailed) ==
            ReopenStep(old(e.world), leg, source, pathKnown, pages, signature, clear)
  {
    evidence, clearFailed := NoEvidence, false;
    if !pathKnown {
      return;
    }
    if clear {
      var cleared := e.Ask(Do(leg, Clear));
      clearFailed := !cleared.ok;
    }
    var copied := e.Ask(Do(leg, CopyOver(source)));
    if !copied.ok {
      return;
    }
    var reopened := e.Ask(Do(leg, Open));
    if !reopened.ok {
      return;
    }
    var onPath := e.world.session == OnUserPath;
    var path := e.Ask(CheckPath(leg));
    if !path.ok || !onPath {
      return;
    }
    var moved := e.Ask(Observe(leg));
    if !moved.ok {
      return;
    }
    evidence := VerifyRestoredDocument(e, leg, pages, signature, Demand(false, true));
  }

  // ----- the recovery copy -----

  datatype FileCapture = Written(signature: string) | Unavailable | Failed

  /** Puts the session back onto the user's path by saving the document there. */
  function MoveBackStep(w: World): (World, bool) {
    var w1 := Next(w, SaveBack);
    if !Reply(w, SaveBack).ok then (w1, false)
    else (Next(w1, CheckPath(Prepare)), Reply(w1, CheckPath(Prepare)).ok && w1.session == OnUserPath)
  }

  function CaptureFileStep(w: World): (World, FileCapture) {
    var w1 := Next(w, ReadPath);
    if !Reply(w, ReadPath).ok then (w1, Unavailable)
    else
      var w2, saved := Next(w1, SaveCopy), Reply(w1, SaveCopy).ok;
      SettleStep(Next(w2, ReadPath), saved, SeenMoved(w2, Reply(w2, ReadPath)))
  }

  /** What becomes of a save under the scratch name, once it has been seen where the session is. */
  function SettleStep(w: World, saved: bool, seen: bool): (World, FileCapture) {
    var (w1, inPlace) := if seen then MoveBackStep(w) else (w, true);
    if !inPlace then (w1.(copy := None), Failed)
    else if !saved then (w1.(copy := None), Unavailable)
    else
      var read := ReadSignature(Prepare, ForCopy);
      (Next(w1, read), Written(Reply(w1, read).text))
  }

  /** Saves the live document under the scratch name, and puts the session back if that moved it. */
  method CaptureDocumentFile(e: Engine) returns (capture: FileCapture)
    modifies e
    ensures (e.world, capture) == CaptureFileStep(old(e.world))
  {
    var path := e.Ask(ReadPath);
    if !path.ok {
      return Unavailable;
    }
    var saved := e.Ask(SaveCopy);
    var onCopy := e.world.session == OnCopy;
    path := e.Ask(ReadPath);
    if path.ok && onCopy {
      var back := e.Ask(SaveBack);
      var inPlace := back.ok;
      if inPlace {
        var onPath := e.world.session == OnUserPath;
        path := e.Ask(CheckPath(Prepare));
        inPlace := path.ok && onPath;
      }
      if !inPlace {
        e.RemoveCopy();
        return Failed;
      }
    }
    if !saved.ok {
      e.RemoveCopy();
      return Unavailable;
    }
    var read := e.Ask(ReadSignature(Prepare, ForCopy));
    capture := Written(read.text);
  }

  /** What the document was before anything is changed, and how to get it back. */
  datatype Rollback = Rollback(usesFile: bool, pathKnown: bool, block: string, pages: int, signature: string)

  /** The engine's own block of the document, kept as a file. */
  function CaptureBlockStep(w: World, pathKnown: bool): (World, Option<Rollback>) {
    var w1, block := Next(w, CaptureBlock), Reply(w, CaptureBlock).text;
    if block == "" then (w1, None)
    else
      var read := ReadSignature(Prepare, ForCopy);
      var w2, signature := Next(w1, read), Reply(w1, read).text;
      var w3, pages := Next(w2, CountPages(Prepare, None)), Reply(w2, CountPages(Prepare, None)).pages;
      if pages.None? then (w3, None)
      else
        var store := StoreBlock(Block(block, signature));
        (Next(w3, store),
         if Reply(w3, store).ok && Saved(store.block).Ok?
         then Some(Rollback(false, pathKnown, block, pages.value, signature)) else None)
  }

  method CaptureDocumentBlock(e: Engine, pathKnown: bool) returns (rollback: Option<Rollback>)
    modifies e
    ensures (e.world, rollback) == CaptureBlockStep(old(e.world), pathKnown)
  {
    var block := e.Ask(CaptureBlock);
    if block.text == "" {
      return None;
    }
    var read := e.Ask(ReadSignature(Prepare, ForCopy));
    var count := e.Ask(CountPages(Prepare, None));
    if count.pages.None? {
      return None;
    }
    var stored := e.Ask(StoreBlock(Block(block.text, read.text)));
    var saved := EncodeBlock(Block(block.text, read.text));
    rollback := None;
    if stored.ok && saved.Ok? {
      rollback := Some(Rollback(false, pathKnown, block.text, count.pages.value, read.text));
    }
  }

  /** What there is to go back to, once the capture to a file has ended. */
  function RollbackStep(w: World, capture: FileCapture, pathKnown: bool): (World, Option<Rollback>) {
    match capture
    case Failed => (w, None)
    case Unavailable => CaptureBlockStep(w, pathKnown)
    case Written(signature) =>
      var count := CountPages(Prepare, None);
      var pages := Reply(w, count).pages;
      (Next(w, count), if pages.None? then None else Some(Rollback(true, pathKnown, "", pages.value, signature)))
  }

  function CaptureStep(w: World): (World, Option<Rollback>) {
    var (w2, capture) := CaptureFileStep(Next(w, ReadPath));
    RollbackStep(w2, capture, Reply(w, ReadPath).ok)
  }

  method CaptureDocumentRollback(e: Engine) returns (rollback: Option<Rollback>)
    modifies e
    ensures (e.world, rollback) == CaptureStep(old(e.world))
  {
    var path := e.Ask(ReadPath);
    var capture := CaptureDocumentFile(e);
    match capture {
      case Failed =>
        rollback := None;
      case Unavailable =>
        rollback := CaptureDocumentBlock(e, path.ok);
      case Written(signature) =>
        var count := e.Ask(CountPages(Prepare, None));
        rollback := if count.pages.None? then None
                    else Some(Rollback(true, path.ok, "", count.pages.value, signature));
    }
  }

  function GoBackStep(w: World, rollback: Rollback, clear: bool): (World, Evidence) {
    if rollback.usesFile then
      var (w1, evidence, _) :=
        ReopenStep(w, Back, FromRecovery, rollback.pathKnown, rollback.pages, rollback.signature, clear);
      (w1, evidence)
    else BlockStep(w, Back, rollback.pages, rollback.signature)
  }

  method ReplaceWithRollback(e: Engine, rollback: Rollback, clear: bool) returns (evidence: Evidence)
    modifies e
    ensures (e.world, evidence) == GoBackStep(old(e.world), rollback, clear)
  {
    if rollback.usesFile {
      var clearFailed;
      evidence, clearFailed := RestoreDocumentFileByReopen(
        e, Back, FromRecovery, rollback.pathKnown, rollback.pages, rollback.signature, clear);
    } else {
      evidence := ReplaceDocumentBlock(e, Back, rollback.pages, rollback.signature);
    }
  }

  function AuthorizeStep(w: World): (World, bool) {
    var w1 := Next(w, Identify);
    if !Reply(w, Identify).ok then (w1, false) else AuthorityStep(w1)
  }

  function AuthorityStep(w: World): (World, bool) {
    if w.authorised == "" then (w, true)
    else if !w.rules.complete(w.authorised) then (w, false)
    else
      var read := ReadSignature(Prepare, ForAuthority);
      (Next(w, read), Acceptable(w, ForAuthority, Reply(w, read).text))
  }

  /** The last check before the first change: the document is still the one the caller meant. */
  method AuthorizeCheckpointMutation(e: Engine) returns (ok: bool)
    modifies e
    ensures (e.world, ok) == AuthorizeStep(old(e.world))
  {
    var identified := e.Ask(Identify);
    if !identified.ok {
      return false;
    }
    if e.world.authorised == "" {
      return true;
    }
    if !e.world.rules.complete(e.world.authorised) {
      return false;
    }
    var read := e.Ask(ReadSignature(Prepare, ForAuthority));
    ok := e.world.rules.complete(read.text) && e.world.rules.Same(e.world.authorised, read.text);
  }

  // ----- the restore -----

  datatype Target = Target(block: string, signature: string, undo: bool, origin: string, originPages: int)

  datatype Outcome =
    | Refused                                            // nothing of the document was changed
    | Restored(evidence: Evidence)
    | RolledBack(rollback: Rollback, evidence: Evidence) // the restore failed and the rollback is proved
    | OriginRestored(rollback: Rollback, evidence: Evidence) // one Undo missed and one Redo is proved
    | CopyKept(rollback: Rollback)                       // nothing is proved, and the recovery copy stays on disk

  /** What the checkpoint and its sidecar say. */
  function Described(layout: Layout, checkpoint: string, sidecar: string): Option<Target> {
    if layout.EncodedBlock? then
      match ReadBack(checkpoint)
      case Err(_) => None
      case Ok(b) => Some(Target(b.block, b.signature, false, "", -1))
    else if checkpoint == "" then None
    else
      var m := ReadMeta(sidecar);
      Some(Target("", m.signature, SingleTextUndo(m), m.origin,
                  if m.originPages.Some? then m.originPages.value else -1))
  }

  /** A target must name its content, and where an Undo is to start from, completely. */
  predicate Authorises(rules: Rules, t: Target) {
    rules.complete(t.signature) && (t.undo ==> rules.complete(t.origin))
  }

  function TargetOf(rules: Rules, layout: Layout, checkpoint: string, sidecar: string): Option<Target> {
    var t := Described(layout, checkpoint, sidecar);
    if t.Some? && Authorises(rules, t.value) then t else None
  }

  method ReadTarget(rules: Rules, layout: Layout, checkpoint: string, sidecar: string) returns (target: Option<Target>)
    ensures target == TargetOf(rules, layout, checkpoint, sidecar)
  {
    var t;
    if layout.EncodedBlock? {
      var r := DecodeBlock(checkpoint);
      if r.Err? {
        return None;
      }
      t := Target(r.value.block, r.value.signature, false, "", -1);
    } else {
      if checkpoint == "" {
        return None;
      }
      var m, undo := ReadCheckpointMeta(sidecar);
      t := Target("", m.signature, undo, m.origin, if m.originPages.Some? then m.originPages.value else -1);
    }
    target := if Authorises(rules, t) then Some(t) else None;
  }

  /** After an Undo that missed: one Redo, which must be proved to have brought the origin back. */
  function RedoStep(w: World, target: Target, rollback: Rollback): (World, Outcome) {
    var w1 := Next(w, Do(Back, Redo));
    if !Reply(w, Do(Back, Redo)).ok then (w1, CopyKept(rollback))
    else
      var w2 := Next(w1, Observe(Back));
      if !Reply(w1, Observe(Back)).ok then (w2, CopyKept(rollback))
      else
        var (w3, evidence) := VerifyStep(w2, Back, target.originPages, target.origin, Demand(true, false));
        (w3, if evidence == NoEvidence then CopyKept(rollback) else OriginRestored(rollback, evidence))
  }

  function UndoStep(w: World, pages: int, target: Target, rollback: Rollback): (World, Outcome) {
    var w1 := Next(w, Do(Forward, Undo));
    if !Reply(w, Do(Forward, Undo)).ok then (w1, CopyKept(rollback))
    else
      var w2 := Next(w1, Glance);
      var w3 := Next(w2, Observe(Forward));
      if !Reply(w2, Observe(Forward)).ok then RedoStep(w3, target, rollback)
      else
        var (w5, evidence) := VerifyStep(Next(w3, Glance), Forward, pages, target.signature, Demand(true, false));
        if evidence == NoEvidence then RedoStep(w5, target, rollback) else (w5, Restored(evidence))
  }

  method RedoOrKeep(e: Engine, target: Target, rollback: Rollback) returns (outcome: Outcome)
    modifies e
    ensures (e.world, outcome) == RedoStep(old(e.world), target, rollback)
  {
    var redone := e.Ask(Do(Back, Redo));
    if !redone.ok {
      return CopyKept(rollback);
    }
    var moved := e.Ask(Observe(Back));
    if !moved.ok {
      return CopyKept(rollback);
    }
    var evidence := VerifyRestoredDocument(e, Back, target.originPages, target.origin, Demand(true, false));
    outcome := if evidence == NoEvidence then CopyKept(rollback) else OriginRestored(rollback, evidence);
  }

  /** One engine Undo, and one Redo if it missed. Never a file restore across the history step. */
  method RestoreByUndo(e: Engine, pages: int, target: Target, rollback: Rollback) returns (outcome: Outcome)
    modifies e
    ensures (e.world, outcome) == UndoStep(old(e.world), pages, target, rollback)
  {
    var undone := e.Ask(Do(Forward, Undo));
    if !undone.ok {
      return CopyKept(rollback);
    }
    var observed := e.Ask(Glance);
    var moved := e.Ask(Observe(Forward));
    if moved.ok {
      observed := e.Ask(Glance);
      var evidence := VerifyRestoredDocument(e, Forward, pages, target.signature, Demand(true, false));
      if evidence != NoEvidence {
        return Restored(evidence);
      }
    }
    outcome := RedoOrKeep(e, target, rollback);
  }

  function AttemptStep(w: World, layout: Layout, pages: int, target: Target, pathKnown: bool): (World, Evidence, bool) {
    if layout.EncodedBlock? then
      var (w1, evidence) := BlockStep(w, Forward, pages, target.signature);
      (w1, evidence, false)
    else ReopenStep(w, Forward, FromCheckpoint, pathKnown, pages, target.signature, true)
  }

  function ReplaceStep(w: World, layout: Layout, pages: int, target: Target, rollback: Rollback): (World, Outcome) {
    var (w1, evidence, clearFailed) := AttemptStep(w, layout, pages, target, rollback.pathKnown);
    if evidence != NoEvidence then (w1, Restored(evidence))
    else
      var (w2, back) := GoBackStep(w1, rollback, !clearFailed);
      (w2, if back != NoEvidence then RolledBack(rollback, back) else CopyKept(rollback))
  }

  /** Replaces the document by the checkpoint, and by the rollback if that is not proved. */
  method RestoreByReplacing(e: Engine, layout: Layout, pages: int, target: Target, rollback: Rollback)
    returns (outcome: Outcome)
    modifies e
    ensures (e.world, outcome) == ReplaceStep(old(e.world), layout, pages, target, rollback)
  {
    var evidence, clearFailed;
    if layout.EncodedBlock? {
      evidence := ReplaceDocumentBlock(e, Forward, pages, target.signature);
      clearFailed := false;
    } else {
      evidence, clearFailed := RestoreDocumentFileByReopen(
        e, Forward, FromCheckpoint, rollback.pathKnown, pages, target.signature, true);
    }
    if evidence != NoEvidence {
      return Restored(evidence);
    }
    evidence := ReplaceWithRollback(e, rollback, !clearFailed);
    outcome := if evidence != NoEvidence then RolledBack(rollback, evidence) else CopyKept(rollback);
  }

  /** Everything before the first change. */
  function PrepareStep(w: World): (World, Option<Rollback>) {
    var (w1, rollback) := CaptureStep(w);
    if rollback.None? || !w.rules.complete(rollback.value.signature) then (w1, None)
    else
      var (w2, authorised) := AuthorizeStep(w1);
      (w2, if authorised then rollback else None)
  }

  function ScratchStep(w: World, layout: Layout, pages: int, target: Target): (World, Outcome) {
    var (w1, rollback) := PrepareStep(w);
    if rollback.None? then (w1, Refused)
    else if target.undo then UndoStep(w1, pages, target, rollback.value)
    else ReplaceStep(w1, layout, pages, target, rollback.value)
  }

  method PrepareRestore(e: Engine) returns (rollback: Option<Rollback>)
    modifies e
    ensures (e.world, rollback) == PrepareStep(old(e.world))
  {
    var rules := e.world.rules;
    rollback := CaptureDocumentRollback(e);
    if rollback.None? || !rules.complete(rollback.value.signature) {
      return None;
    }
    var authorized := AuthorizeCheckpointMutation(e);
    if !authorized {
      rollback := None;
    }
  }

  method RestoreWithScratch(e: Engine, layout: Layout, pages: int, target: Target) returns (outcome: Outcome)
    modifies e
    ensures (e.world, outcome) == ScratchStep(old(e.world), layout, pages, target)
  {
    var rollback := PrepareRestore(e);
    if rollback.None? {
      return Refused;
    }
    if target.undo {
      outcome := RestoreByUndo(e, pages, target, rollback.value);
    } else {
      outcome := RestoreByReplacing(e, layout, pages, target, rollback.value);
    }
  }

  /** The checkpoint to restore, and whether a name for the recovery copy could be made. */
  datatype Request = Request(layout: Layout, pages: int, checkpoint: string, sidecar: string, nameCreated: bool)

  function Wanted(rules: Rules, r: Request): Option<Target> {
    if r.nameCreated then TargetOf(rules, r.layout, r.checkpoint, r.sidecar) else None
  }

  function RestoreStep(w: World, r: Request): (World, Outcome) {
    var target := Wanted(w.rules, r);
    if target.None? then (w, Refused)
    else
      var (w1, outcome) := ScratchStep(w, r.layout, r.pages, target.value);
      (if outcome.CopyKept? then w1 else w1.(copy := None), outcome)
  }

  /** The whole restore. The scratch copy is deleted on every way out but the one that keeps it. */
  method ReplaceDocumentFromCheckpoint(e: Engine, r: Request) returns (outcome: Outcome)
    modifies e
    ensures (e.world, outcome) == RestoreStep(old(e.world), r)
  {
    var target := ReadTarget(e.world.rules, r.layout, r.checkpoint, r.sidecar);
    if target.None? || !r.nameCreated {
      return Refused;
    }
    outcome := RestoreWithScratch(e, r.layout, r.pages, target.value);
    if !outcome.CopyKept? {
      e.RemoveCopy();
    }
  }
}
