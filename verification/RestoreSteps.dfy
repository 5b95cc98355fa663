/** What the steps of a checkpoint restore keep, change and prove, whatever the engine answers. */
module RestoreSteps {
  import opened Options
  import opened CheckpointSignatures
  import opened EncodedBlocks
  import opened RestoreWorld
  import opened CheckpointRestore

  // ----- evidence -----

  predicate SignatureRead(expected: string, read: Option<string>) {
    expected != "" && read.Some? && read.value != ""
  }

  /** What each kind of evidence means: which signature was read, and how it compares with the expected one. */
  predicate Supports(rules: Rules, read: Option<string>, expected: string, demand: Demand, evidence: Evidence) {
    match evidence
    case NoEvidence => false
    case PageCountOnly => !demand.requireContent && read == Some("")
    case FullSignature =>
      SignatureRead(expected, read) && rules.compare(expected, read.value, false) == Comparison(true, true)
    case StructuralSignature =>
      SignatureRead(expected, read) && rules.compare(expected, read.value, false) == Comparison(true, false)
    case Normalized =>
      demand.allowNormalized && SignatureRead(expected, read) && !rules.Same(expected, read.value) &&
      rules.compare(expected, read.value, true).matches
  }

  /** The last readings, made since the last change, prove the document to be the expected one. */
  predicate Proves(w: World, pages: int, expected: string, demand: Demand, evidence: Evidence) {
    w.pages == Some(pages) && Supports(w.rules, w.signature, expected, demand, evidence)
  }

  /** The verdict is the evidence that is there, and none only when there is none. */
  lemma {:induction false} JudgeIsRight(rules: Rules, expected: string, actual: string, demand: Demand,
                                        evidence: Evidence)
    requires expected != "" && evidence != NoEvidence
    ensures Judge(rules, expected, actual, demand) == evidence <==>
            Supports(rules, Some(actual), expected, demand, evidence)
  {
  }

  // ----- frames -----

  ghost predicate SameEnv(w: World, v: World) {
    v.script == w.script && v.rules == w.rules && v.authorised == w.authorised
  }

  /** What the preparation has recorded and no later step changes. */
  predicate SameRecord(w: World, v: World) {
    v.copy == w.copy && v.notes == w.notes
  }

  /** The session is off the user's path exactly if saving the copy moved it and nothing has brought it back. */
  predicate Standing(w: World) {
    w.session == OnUserPath <==> !w.notes.moved || w.notes.returned || w.reopened
  }

  /** The document that the first change meets: what was copied, and what has arrived since. */
  function Found(w: World): Doc {
    w.notes.taken + w.notes.since
  }

  /** The list of changes is empty exactly as long as none was made, and so long the document found is live. */
  predicate Listed(w: World) {
    (Changed(w) <==> w.changes != []) && (w.changes == [] ==> w.doc == Found(w))
  }

  /** A complete signature is not empty. */
  predicate Sensible(rules: Rules) {
    !rules.complete("")
  }

  lemma {:induction false} SignaturesAreSensible()
    ensures Sensible(SignatureRules())
  {
    assert SkipSpace("") == "" && WordLength("") == 0;
    assert ReadFixed("").value.None?;
  }

  /** Any signature that matches a complete one matches just those complete ones that this one matches. */
  ghost predicate Coherent(rules: Rules) {
    forall o, s, read :: rules.complete(o) && rules.complete(s) && rules.Same(o, read) ==>
      (rules.Same(o, s) <==> rules.Same(s, read))
  }

  lemma {:induction false} SignaturesAreCoherent()
    ensures Coherent(SignatureRules())
  {
    var rules := SignatureRules();
    forall o, s, read | rules.complete(o) && rules.complete(s) && rules.Same(o, read)
      ensures rules.Same(o, s) <==> rules.Same(s, read)
    {
      MatchesAgree(o, s, read);
    }
  }

  /** Only observations were made. */
  ghost predicate OnlyLooked(w: World, v: World) {
    v == w.(calls := v.calls, pages := v.pages, signature := v.signature, faults := v.faults)
  }

  lemma {:induction false} CountLooks(w: World, leg: Leg, pages: int)
    requires leg != Prepare
    ensures var v, read := Next(w, CountPages(leg, Some(pages))), Reply(w, CountPages(leg, Some(pages))).pages;
      OnlyLooked(w, v) && v.faults == w.faults + When(read != Some(pages), leg) && v.pages == read
  {
  }

  lemma {:induction false} SignatureLooks(w: World, leg: Leg, expected: string, demand: Demand)
    requires leg != Prepare
    ensures var read := ReadSignature(leg, ForProof(expected, demand));
      var v, text := Next(w, read), Reply(w, read).text;
      OnlyLooked(w, v) && v.signature == Some(text) && v.pages == w.pages &&
      v.faults == w.faults + When(Judge(w.rules, expected, text, demand) == NoEvidence, leg)
  {
  }

  lemma {:induction false} LookOn(w: World, u: World, v: World)
    requires OnlyLooked(w, u) && OnlyLooked(u, v)
    ensures OnlyLooked(w, v)
  {
  }

  lemma {:induction false} VerifyLooks(w: World, leg: Leg, pages: int, expected: string, demand: Demand)
    requires expected != "" && leg != Prepare
    ensures var (v, evidence) := VerifyStep(w, leg, pages, expected, demand);
      OnlyLooked(w, v) && v.faults == w.faults + When(evidence == NoEvidence, leg)
  {
    var count := CountPages(leg, Some(pages));
    var w1 := Next(w, count);
    CountLooks(w, leg, pages);
    if Reply(w, count).pages == Some(pages) {
      SignatureLooks(w1, leg, expected, demand);
      LookOn(w, w1, Next(w1, ReadSignature(leg, ForProof(expected, demand))));
    }
  }

  lemma {:induction false} VerifyProves(w: World, leg: Leg, pages: int, expected: string, demand: Demand)
    requires expected != "" && leg != Prepare
    ensures var (v, evidence) := VerifyStep(w, leg, pages, expected, demand);
      evidence != NoEvidence ==> Proves(v, pages, expected, demand, evidence)
  {
    var count := CountPages(leg, Some(pages));
    var w1, read := Next(w, count), ReadSignature(leg, ForProof(expected, demand));
    CountLooks(w, leg, pages);
    SignatureLooks(w1, leg, expected, demand);
    var evidence := Judge(w.rules, expected, Reply(w1, read).text, demand);
    if evidence != NoEvidence {
      JudgeIsRight(w.rules, expected, Reply(w1, read).text, demand, evidence);
    }
  }

  lemma {:induction false} VerifyRuns(w: World, leg: Leg, pages: int, expected: string, demand: Demand)
    requires expected != "" && leg != Prepare
    ensures var (v, evidence) := VerifyStep(w, leg, pages, expected, demand);
      OnlyLooked(w, v) && v.faults == w.faults + When(evidence == NoEvidence, leg) &&
      (evidence != NoEvidence ==> Proves(v, pages, expected, demand, evidence))
  {
    VerifyLooks(w, leg, pages, expected, demand);
    VerifyProves(w, leg, pages, expected, demand);
  }

  /** The document may be replaced: with authority and a copy, or because it already has been. */
  predicate MayReplace(w: World) {
    !w.undone && (w.replaced || MayChange(w))
  }

  /** What a replacement keeps; `failed` says whether the leg can no longer succeed. */
  ghost predicate Replacing(w: World, v: World, leg: Leg, failed: bool) {
    v == w.(calls := v.calls, doc := v.doc, session := v.session, userFile := v.userFile, reopened := v.reopened,
            empty := v.empty, replaced := v.replaced, orderly := v.orderly, changes := v.changes, pages := v.pages,
            signature := v.signature, faults := v.faults) &&
    (w.replaced ==> v.replaced) && (Standing(w) ==> Standing(v)) && (Listed(w) ==> Listed(v)) &&
    v.faults == w.faults + When(failed, leg) && (w.orderly && MayReplace(w) ==> v.orderly && MayReplace(v))
  }

  predicate SamePlace(w: World, v: World) {
    v.userFile == w.userFile && v.session == w.session
  }

  lemma {:induction false} Onward(w: World, u: World, v: World, leg: Leg, failed: bool)
    requires Replacing(w, u, leg, false) && Replacing(u, v, leg, failed)
    ensures Replacing(w, v, leg, failed)
  {
  }

  /** A look that must succeed. */
  lemma {:induction false} LookRuns(w: World, c: Call, leg: Leg)
    requires c in {Observe(leg), Ends(leg), Residue(leg)}
    ensures Replacing(w, Next(w, c), leg, !Reply(w, c).ok) && SamePlace(w, Next(w, c))
    ensures Next(w, c).replaced == w.replaced && Next(w, c).empty == SeenEmpty(w, c)
  {
    match c
    case Observe(_) => ObserveRuns(w, leg);
    case Ends(_) => EndsRuns(w, leg);
    case Residue(_) => BreaksRuns(w, leg);
  }

  /** Whether the body is known to be empty after a look. */
  predicate SeenEmpty(w: World, c: Call) {
    match c
    case Ends(_) => Reply(w, c).ok && Reply(w, c).same
    case Residue(_) => Reply(w, c).ok
    case _ => w.empty
  }

  /** Only a look, which may fail. */
  ghost predicate Looks(w: World, v: World, leg: Leg, failed: bool) {
    v == w.(calls := w.calls + 1, empty := v.empty, faults := w.faults + When(failed, leg))
  }

  lemma {:induction false} ObserveRuns(w: World, leg: Leg)
    ensures var v := Next(w, Observe(leg)); Looks(w, v, leg, !Reply(w, Observe(leg)).ok) && v.empty == w.empty
  {
  }

  lemma {:induction false} EndsRuns(w: World, leg: Leg)
    ensures var v := Next(w, Ends(leg));
      Looks(w, v, leg, !Reply(w, Ends(leg)).ok) && v.empty == SeenEmpty(w, Ends(leg))
  {
  }

  lemma {:induction false} BreaksRuns(w: World, leg: Leg)
    ensures var v := Next(w, Residue(leg));
      Looks(w, v, leg, !Reply(w, Residue(leg)).ok) && v.empty == SeenEmpty(w, Residue(leg))
  {
  }

  /** A replacement of the document or its file. */
  lemma {:induction false} DoRuns(w: World, c: Change, leg: Leg)
    requires !IsHistory(c) && c != Clear && (c == InsertBlock ==> w.empty)
    ensures Replacing(w, Next(w, Do(leg, c)), leg, !Reply(w, Do(leg, c)).ok) && Next(w, Do(leg, c)).replaced
    ensures c == ClearBody || c == InsertBlock ==> SamePlace(w, Next(w, Do(leg, c)))
  {
  }

  lemma {:induction false} DeleteBodyRuns(w: World, leg: Leg)
    ensures var (v, ok) := DeleteBodyStep(w, leg); Replacing(w, v, leg, !ok) && SamePlace(w, v)
  {
    LookRuns(w, Ends(leg), leg);
    var w1, ends := Next(w, Ends(leg)), Reply(w, Ends(leg));
    if !ends.ok || ends.same { return; }
    RemoveBodyRuns(w1, leg);
    var (w2, removed) := RemoveBodyStep(w1, leg);
    Onward(w, w1, w2, leg, !removed);
  }

  lemma {:induction false} RemoveBodyRuns(w: World, leg: Leg)
    ensures var (v, ok) := RemoveBodyStep(w, leg); Replacing(w, v, leg, !ok) && SamePlace(w, v)
  {
    LookRuns(w, Observe(leg), leg);
    var w1, ok := Next(w, Observe(leg)), Reply(w, Observe(leg)).ok;
    if !ok { return; }
    DoRuns(w1, ClearBody, leg);
    Onward(w, w1, Next(w1, Do(leg, ClearBody)), leg, !Reply(w1, Do(leg, ClearBody)).ok);
  }

  lemma {:induction false} CheckEmptyRuns(w: World, leg: Leg)
    ensures var (v, ok) := CheckEmptyStep(w, leg);
      Replacing(w, v, leg, !ok) && SamePlace(w, v) && (ok ==> v.empty)
  {
    LookRuns(w, Ends(leg), leg);
    var w1, ends := Next(w, Ends(leg)), Reply(w, Ends(leg));
    if !ends.ok { return; }
    if ends.same {
      ThenLook(w, w1, Observe(leg), leg);
    } else {
      ResidueRuns(w1, leg);
      var (w2, ok) := ResidueStep(w1, leg);
      ThenOn(w, w1, w2, leg, !ok);
    }
  }

  lemma {:induction false} ThenLook(w: World, w1: World, c: Call, leg: Leg)
    requires Replacing(w, w1, leg, false) && SamePlace(w, w1) && c in {Observe(leg), Ends(leg), Residue(leg)}
    ensures Replacing(w, Next(w1, c), leg, !Reply(w1, c).ok) && SamePlace(w, Next(w1, c))
    ensures Next(w1, c).empty == SeenEmpty(w1, c)
  {
    LookRuns(w1, c, leg);
    Onward(w, w1, Next(w1, c), leg, !Reply(w1, c).ok);
  }

  lemma {:induction false} ThenOn(w: World, w1: World, w2: World, leg: Leg, failed: bool)
    requires Replacing(w, w1, leg, false) && SamePlace(w, w1) && Replacing(w1, w2, leg, failed) && SamePlace(w1, w2)
    ensures Replacing(w, w2, leg, failed) && SamePlace(w, w2)
  {
    Onward(w, w1, w2, leg, failed);
  }

  lemma {:induction false} ResidueRuns(w: World, leg: Leg)
    ensures var (v, ok) := ResidueStep(w, leg);
      Replacing(w, v, leg, !ok) && SamePlace(w, v) && (ok ==> v.empty)
  {
    LookRuns(w, Residue(leg), leg);
    var w1, ok := Next(w, Residue(leg)), Reply(w, Residue(leg)).ok;
    if !ok { return; }
    LookRuns(w1, Observe(leg), leg);
    Onward(w, w1, Next(w1, Observe(leg)), leg, !Reply(w1, Observe(leg)).ok);
  }

  lemma {:induction false} ClearBodyRuns(w: World, leg: Leg)
    ensures var (v, ok) := ClearBodyStep(w, leg);
      Replacing(w, v, leg, !ok) && SamePlace(w, v) && (ok ==> v.empty)
  {
    DeleteBodyRuns(w, leg);
    var (w1, deleted) := DeleteBodyStep(w, leg);
    if !deleted { return; }
    CheckEmptyRuns(w1, leg);
    var (w2, cleared) := CheckEmptyStep(w1, leg);
    Onward(w, w1, w2, leg, !cleared);
  }

  lemma {:induction false} InsertRuns(w: World, leg: Leg)
    requires w.empty
    ensures var (v, ok) := InsertStep(w, leg); Replacing(w, v, leg, !ok) && SamePlace(w, v) && v.replaced
  {
    DoRuns(w, InsertBlock, leg);
    var w1, ok := Next(w, Do(leg, InsertBlock)), Reply(w, Do(leg, InsertBlock)).ok;
    if !ok { return; }
    LookRuns(w1, Observe(leg), leg);
    Onward(w, w1, Next(w1, Observe(leg)), leg, !Reply(w1, Observe(leg)).ok);
  }

  lemma {:induction false} LookingReplaces(w: World, v: World, leg: Leg, failed: bool)
    requires OnlyLooked(w, v) && w.replaced && v.faults == w.faults + When(failed, leg)
    ensures Replacing(w, v, leg, failed) && SamePlace(w, v) && v.replaced
  {
  }

  /** The look at a document that has been replaced. */
  lemma {:induction false} ProofRuns(w: World, leg: Leg, pages: int, expected: string, demand: Demand)
    requires w.replaced && expected != "" && leg != Prepare
    ensures var (v, evidence) := VerifyStep(w, leg, pages, expected, demand);
      Replacing(w, v, leg, evidence == NoEvidence) && SamePlace(w, v) && v.replaced &&
      (evidence != NoEvidence ==> Proves(v, pages, expected, demand, evidence))
  {
    VerifyRuns(w, leg, pages, expected, demand);
    var (v, evidence) := VerifyStep(w, leg, pages, expected, demand);
    LookingReplaces(w, v, leg, evidence == NoEvidence);
  }

  lemma {:induction false} FillRuns(w: World, leg: Leg, pages: int, signature: string)
    requires w.empty && signature != "" && leg != Prepare
    ensures var (v, evidence) := FillStep(w, leg, pages, signature);
      Replacing(w, v, leg, evidence == NoEvidence) && SamePlace(w, v) &&
      (evidence != NoEvidence ==> v.replaced && Proves(v, pages, signature, Demand(false, false), evidence))
  {
    InsertRuns(w, leg);
    var (w1, inserted) := InsertStep(w, leg);
    if !inserted { return; }
    ProofRuns(w1, leg, pages, signature, Demand(false, false));
    var (w2, evidence) := VerifyStep(w1, leg, pages, signature, Demand(false, false));
    Onward(w, w1, w2, leg, evidence == NoEvidence);
  }

  /** A block restore stays where the document is, inserts only into a body that has been seen empty (or it would not be
      orderly), and a proof of it rests on what it inserted. */
  lemma {:induction false} BlockRuns(w: World, leg: Leg, pages: int, signature: string)
    requires signature != "" && leg != Prepare
    ensures var (v, evidence) := BlockStep(w, leg, pages, signature);
      Replacing(w, v, leg, evidence == NoEvidence) && SamePlace(w, v) &&
      (evidence != NoEvidence ==> v.replaced && Proves(v, pages, signature, Demand(false, false), evidence))
  {
    ClearBodyRuns(w, leg);
    var (w1, cleared) := ClearBodyStep(w, leg);
    if !cleared { return; }
    FillRuns(w1, leg, pages, signature);
    var (w2, evidence) := FillStep(w1, leg, pages, signature);
    Onward(w, w1, w2, leg, evidence == NoEvidence);
  }

  lemma {:induction false} PathRuns(w: World, leg: Leg)
    requires leg != Prepare
    ensures var v, ok := Next(w, CheckPath(leg)), Reply(w, CheckPath(leg)).ok && w.session == OnUserPath;
      Replacing(w, v, leg, !ok) && SamePlace(w, v) && v.replaced == w.replaced
  {
  }

  lemma {:induction false} CopyRuns(w: World, leg: Leg, source: Source)
    ensures Next(w, Do(leg, CopyOver(source))).userFile == Copied(Reply(w, Do(leg, CopyOver(source))).ok, source)
    ensures Next(w, Do(leg, Open)).userFile == w.userFile
  {
  }

  lemma {:induction false} ArriveRuns(w: World, leg: Leg)
    requires leg != Prepare
    ensures var (v, ok) := ArriveStep(w, leg);
      Replacing(w, v, leg, !ok) && SamePlace(w, v) && v.replaced == w.replaced && (ok ==> v.session == OnUserPath)
  {
    PathRuns(w, leg);
    var w1, onPath := Next(w, CheckPath(leg)), Reply(w, CheckPath(leg)).ok && w.session == OnUserPath;
    if !onPath { return; }
    LookRuns(w1, Observe(leg), leg);
    Onward(w, w1, Next(w1, Observe(leg)), leg, !Reply(w1, Observe(leg)).ok);
  }

  lemma {:induction false} OpenRuns(w: World, leg: Leg, source: Source)
    requires leg != Prepare
    ensures var (v, ok) := OpenStep(w, leg, source);
      Replacing(w, v, leg, !ok) && v.replaced && v.userFile in {Copied(true, source), Uncertain} &&
      (ok ==> v.userFile == Copied(true, source) && v.session == OnUserPath)
  {
    DoRuns(w, CopyOver(source), leg);
    CopyRuns(w, leg, source);
    var w1, ok := Next(w, Do(leg, CopyOver(source))), Reply(w, Do(leg, CopyOver(source))).ok;
    if !ok { return; }
    DoRuns(w1, Open, leg);
    CopyRuns(w1, leg, source);
    var w2, isOpen := Next(w1, Do(leg, Open)), Reply(w1, Do(leg, Open)).ok;
    Onward(w, w1, w2, leg, !isOpen);
    if !isOpen { return; }
    ArriveRuns(w2, leg);
    var (w3, arrived) := ArriveStep(w2, leg);
    Onward(w, w2, w3, leg, !arrived);
  }

  lemma {:induction false} ClearRuns(w: World, leg: Leg)
    ensures var v := Next(w, Do(leg, Clear)); Replacing(w, v, leg, false) && v.replaced && SamePlace(w, v)
  {
  }

  /** A reopen needs a known path; then the user's file is replaced, and a proof of it rests on what was opened. */
  lemma {:induction false} ReopenRuns(w: World, leg: Leg, source: Source, pages: int, signature: string, clear: bool)
    requires signature != "" && leg != Prepare
    ensures var (v, evidence, failed) := ReopenStep(w, leg, source, true, pages, signature, clear);
      Replacing(w, v, leg, evidence == NoEvidence) && v.replaced &&
      v.userFile in {Copied(true, source), Uncertain} &&
      (evidence != NoEvidence ==>
         v.userFile == Copied(true, source) && v.session == OnUserPath &&
         Proves(v, pages, signature, Demand(false, true), evidence))
  {
    var w1 := if clear then Next(w, Do(leg, Clear)) else w;
    ClearRuns(w, leg);
    OpenRuns(w1, leg, source);
    var (w2, ok) := OpenStep(w1, leg, source);
    if clear { Onward(w, w1, w2, leg, !ok); }
    if !ok { return; }
    ProofRuns(w2, leg, pages, signature, Demand(false, true));
    var (w3, evidence) := VerifyStep(w2, leg, pages, signature, Demand(false, true));
    Onward(w, w2, w3, leg, evidence == NoEvidence);
  }
}
