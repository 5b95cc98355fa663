/**
 * The engine and the disk that a checkpoint restore works on. Every answer is arbitrary; the world records what
 * the restore may rely on: what was changed, what has been observed since, where the document and its copies are,
 * and in which part of the restore an answer came that it cannot get past.
 */
module RestoreWorld {
  import opened Options
  import opened CheckpointSignatures
  import opened EncodedBlocks

  /** A document by its version: edits that arrive on their own count it on, and a change leaves any version. */
  type Doc = nat

  /** The parts of a restore: before any change, towards the checkpoint, and back to what was found. */
  datatype Leg = Prepare | Forward | Back

  datatype Session = OnUserPath | OnCopy

  /** What the file at the user's path holds; `SavedBack` is the live document, saved there by the capture. */
  datatype FileState = Untouched | SavedBack | HoldsCheckpoint | HoldsRecovery | Uncertain

  /** The recovery copy: a document file, or the block that the engine gave for the document. */
  datatype Copy = FileCopy(doc: Doc) | BlockCopy(doc: Doc, block: Block, bytes: string)

  datatype Source = FromCheckpoint | FromRecovery

  /** The calls that change the live document or replace the user's file. */
  datatype Change = Undo | Redo | Clear | CopyOver(source: Source) | Open | ClearBody | InsertBlock

  predicate IsHistory(c: Change) {
    c == Undo || c == Redo
  }

  /** How strict a verification is: content must prove it, or a file may come back normalised. */
  datatype Demand = Demand(requireContent: bool, allowNormalized: bool)

  datatype Purpose = ForCopy | ForAuthority | ForProof(expected: string, demand: Demand)

  datatype Call =
    | ReadPath                                             // where the session says it is
    | SaveCopy                                             // SaveAs under the scratch name
    | SaveBack                                             // SaveAs under the user's own path
    | CheckPath(leg: Leg)                                  // the session must be on the user's path
    | CaptureBlock | StoreBlock(block: Block)
    | Identify
    | CountPages(leg: Leg, expected: Option<int>)
    | ReadSignature(leg: Leg, purpose: Purpose)
    | Observe(leg: Leg)                                    // caret moves and selections that must succeed
    | Ends(leg: Leg)                                       // where the body begins and ends
    | Residue(leg: Leg)                                    // whether only paragraph breaks are left
    | Glance                                               // observations that decide nothing
    | Do(leg: Leg, change: Change)

  /**
   * One answer. `landed`: the session stands afterwards where the call was aimed; `same`: both ends of the body
   * coincide; `doc`: the document a change leaves behind; `edits`: how many edits of others the engine lets in
   * while it serves a call of the preparation.
   */
  datatype Answer = Answer(ok: bool, landed: bool, same: bool, pages: Option<int>, text: string, doc: Doc, edits: nat)

  type Script = (nat, Call) -> Answer

  /** The two questions that a restore asks about signatures. */
  datatype Rules = Rules(complete: string -> bool, compare: (string, string, bool) -> Comparison) {
    predicate Same(expected: string, actual: string) { compare(expected, actual, false).matches }
  }

  /** The answers that the signature lines of a checkpoint give. */
  function SignatureRules(): Rules {
    Rules((raw: string) => ContentSignatureIsComplete(raw),
          (expected: string, actual: string, ignore: bool) => ContentSignaturesMatch(expected, actual, ignore))
  }

  /** What a verification rests on. */
  datatype Evidence = NoEvidence | FullSignature | StructuralSignature | Normalized | PageCountOnly

  /** The evidence that a signature read gives for an expected one. */
  function Judge(rules: Rules, expected: string, actual: string, demand: Demand): Evidence {
    if actual == "" then if demand.requireContent then NoEvidence else PageCountOnly
    else
      var strict := rules.compare(expected, actual, false);
      if strict.matches then if strict.textCompared then FullSignature else StructuralSignature
      else if demand.allowNormalized && rules.compare(expected, actual, true).matches then Normalized
      else NoEvidence
  }

  /**
   * What is noted before the first change. `taken`: the document of which the recovery copy was last taken; `since`:
   * the edits that have arrived since then; `checked`: the document at the last check of authority, and `stale`: the
   * edits that had arrived by then; `moved`: saving the copy moved the session; `returned`: saving back landed.
   */
  datatype Notes = Notes(taken: Doc, since: nat, checked: Option<Doc>, stale: nat, moved: bool, returned: bool)

  /** `reopened`: an open has landed on the user's path; `empty`: the body was last seen empty, or to hold nothing but
      paragraph breaks, and nothing has been changed since. */
  datatype World = World(
    script: Script, rules: Rules, authorised: string, calls: nat,
    doc: Doc, notes: Notes, session: Session, userFile: FileState, copy: Option<Copy>, reopened: bool, empty: bool,
    identified: bool, undone: bool, replaced: bool, orderly: bool, changes: seq<Change>,
    pages: Option<int>, signature: Option<string>, faults: set<Leg>)

  /** The world in which a restore begins, with the document `doc` live at the user's path. */
  function Fresh(script: Script, rules: Rules, authorised: string, doc: Doc): World {
    World(script, rules, authorised, 0, doc, Notes(doc, 0, None, 0, false, false), OnUserPath, Untouched, None, false,
          false, false, false, false, true, [], None, None, {})
  }

  /** The document is identified and copied, and it is the one that the caller authorised. */
  predicate MayChange(w: World) {
    w.identified && w.copy.Some? &&
    (w.authorised == "" ||
     (w.rules.complete(w.authorised) && w.signature.Some? && w.rules.complete(w.signature.value) &&
      w.rules.Same(w.authorised, w.signature.value)))
  }

  predicate Changed(w: World) {
    w.undone || w.replaced
  }

  /** The first change needs authority and a copy; a history step never follows a replacement, nor the reverse; and a
      block goes only into a body that has been seen empty. */
  predicate Permitted(w: World, c: Change) {
    (!Changed(w) ==> MayChange(w)) && (if IsHistory(c) then !w.replaced else !w.undone) &&
    (c == InsertBlock ==> w.empty)
  }

  function When(fault: bool, leg: Leg): set<Leg> {
    if fault then {leg} else {}
  }

  /** The part of the restore that cannot succeed after this answer. */
  function Fault(w: World, c: Call, a: Answer): set<Leg> {
    match c
    case ReadPath => {}
    case SaveCopy => {}
    case Glance => {}
    case SaveBack => When(!a.ok, Prepare)
    case CheckPath(leg) => When(!a.ok || w.session != OnUserPath, leg)
    case CaptureBlock => When(a.text == "", Prepare)
    case StoreBlock(b) => When(!a.ok || Saved(b).Err?, Prepare)
    case Identify => When(!a.ok, Prepare)
    case CountPages(leg, expected) => When(a.pages.None? || (expected.Some? && a.pages != expected), leg)
    case ReadSignature(leg, purpose) => When(!Acceptable(w, purpose, a.text), leg)
    case Observe(leg) => When(!a.ok, leg)
    case Ends(leg) => When(!a.ok, leg)
    case Residue(leg) => When(!a.ok, leg)
    case Do(leg, change) =>
      if a.ok || change == Clear then {} else if change == Undo then {Forward, Back} else {leg}
  }

  predicate Acceptable(w: World, purpose: Purpose, text: string) {
    match purpose
    case ForCopy => w.rules.complete(text)
    case ForAuthority => w.rules.complete(text) && w.rules.Same(w.authorised, text)
    case ForProof(expected, demand) => Judge(w.rules, expected, text, demand) != NoEvidence
  }

  function Copied(ok: bool, source: Source): FileState {
    if !ok then Uncertain
    else match source
      case FromCheckpoint => HoldsCheckpoint
      case FromRecovery => HoldsRecovery
  }

  /** What a change leaves behind. Nothing read before it counts any more. */
  function AfterChange(w: World, c: Change, a: Answer): World {
    w.(doc := a.doc, pages := None, signature := None, empty := false, changes := w.changes + [c],
       undone := w.undone || IsHistory(c), replaced := w.replaced || !IsHistory(c),
       orderly := w.orderly && Permitted(w, c),
       userFile := if c.CopyOver? then Copied(a.ok, c.source) else w.userFile,
       session := if c.Open? && a.landed then OnUserPath else w.session,
       reopened := w.reopened || (c.Open? && a.landed))
  }

  /** The document is noted as the one of which a copy is taken. */
  function Taken(w: World): World {
    w.(notes := w.notes.(taken := w.doc, since := 0))
  }

  /** The document is noted as the one whose authority is checked. */
  function Checked(w: World): World {
    w.(notes := w.notes.(checked := Some(w.doc), stale := w.notes.since))
  }

  /** The calls of the preparation that go to the engine, which may let in edits of others while it serves them. */
  predicate LetsIn(c: Call) {
    match c
    case ReadPath => true
    case SaveCopy => true
    case SaveBack => true
    case CheckPath(leg) => leg == Prepare
    case CaptureBlock => true
    case Identify => true
    case CountPages(leg, _) => leg == Prepare
    case ReadSignature(leg, _) => leg == Prepare
    case _ => false
  }

  /** Edits that arrive during a call come after what the call itself saw or saved. */
  function Edited(w: World, c: Call, a: Answer): World {
    if LetsIn(c) then w.(doc := w.doc + a.edits, notes := w.notes.(since := w.notes.since + a.edits)) else w
  }

  function After(w: World, c: Call, a: Answer): World {
    match c
    case SaveCopy =>
      w.(session := if a.landed then OnCopy else w.session,
         notes := w.notes.(taken := w.doc, since := 0, moved := w.notes.moved || a.landed),
         copy := if a.ok then Some(FileCopy(w.doc)) else w.copy)
    case SaveBack =>
      w.(session := if a.landed then OnUserPath else w.session, userFile := if a.ok then SavedBack else Uncertain,
         notes := w.notes.(returned := w.notes.returned || a.landed))
    case CaptureBlock => Taken(w)
    case StoreBlock(b) =>
      w.(copy := if a.ok && Saved(b).Ok? then Some(BlockCopy(w.notes.taken, b, Saved(b).value)) else w.copy)
    case Identify => Checked(w).(identified := a.ok)
    case CountPages(_, _) => w.(pages := a.pages)
    case ReadSignature(_, purpose) => (if purpose.ForAuthority? then Checked(w) else w).(signature := Some(a.text))
    case Ends(_) => w.(empty := a.ok && a.same)
    case Residue(_) => w.(empty := a.ok)
    case Do(_, change) => AfterChange(w, change, a)
    case _ => w
  }

  function Next(w: World, c: Call): World {
    var a := w.script(w.calls, c);
    Edited(After(w, c, a), c, a).(calls := w.calls + 1, faults := w.faults + Fault(w, c, a))
  }

  function Reply(w: World, c: Call): Answer {
    w.script(w.calls, c)
  }

  /** A successful path read tells where the session is. */
  predicate SeenMoved(w: World, a: Answer) {
    a.ok && w.session == OnCopy
  }

  class Engine {
    var world: World

    constructor (world: World)
      ensures this.world == world
    {
      this.world := world;
    }

    method Ask(c: Call) returns (a: Answer)
      modifies this
      ensures world == Next(old(world), c) && a == Reply(old(world), c)
    {
      a := Reply(world, c);
      world := Next(world, c);
    }

    method RemoveCopy()
      modifies this
      ensures world == old(world).(copy := None)
    {
      world := world.(copy := None);
    }
  }
}
