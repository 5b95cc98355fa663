/** Which calls of a checkpoint restore change the document or its file, and in which order. */
module RestoreChanges {
  import opened Options
  import opened EncodedBlocks
  import opened RestoreWorld
  import opened CheckpointRestore
  import opened RestoreSteps

  function If(condition: bool, c: Change): seq<Change> {
    if condition then [c] else []
  }

  lemma {:induction false} LookChangesNothing(w: World, c: Call)
    requires !c.Do?
    ensures Next(w, c).changes == w.changes && Next(w, c).script == w.script
  {
    var a := w.script(w.calls, c);
    AnswerChangesNothing(w, c, a);
    EditsChangeNothing(After(w, c, a), c, a);
  }

  lemma {:induction false} AnswerChangesNothing(w: World, c: Call, a: Answer)
    requires !c.Do?
    ensures After(w, c, a).changes == w.changes && After(w, c, a).script == w.script
  {
    match c
    case SaveCopy =>
    case SaveBack =>
    case StoreBlock(_) =>
    case ReadSignature(_, _) =>
    case _ =>
  }

  lemma {:induction false} EditsChangeNothing(w: World, c: Call, a: Answer)
    ensures Edited(w, c, a).changes == w.changes && Edited(w, c, a).script == w.script
  {
  }

  lemma {:induction false} DoChanges(w: World, leg: Leg, c: Change)
    ensures Next(w, Do(leg, c)).changes == w.changes + [c] && Next(w, Do(leg, c)).script == w.script
  {
  }

  lemma {:induction false} VerifyChangesNothing(w: World, leg: Leg, pages: int, expected: string, demand: Demand)
    ensures VerifyStep(w, leg, pages, expected, demand).0.changes == w.changes
  {
    LookChangesNothing(w, CountPages(leg, Some(pages)));
    LookChangesNothing(Next(w, CountPages(leg, Some(pages))), ReadSignature(leg, ForProof(expected, demand)));
  }

  // ----- a block -----

  /** A body is found, and can be selected. */
  predicate BodyFound(w: World, leg: Leg) {
    Reply(w, Ends(leg)).ok && !Reply(w, Ends(leg)).same && Reply(Next(w, Ends(leg)), Observe(leg)).ok
  }

  lemma {:induction false} DeleteChanges(w: World, leg: Leg)
    ensures DeleteBodyStep(w, leg).0.changes == w.changes + If(BodyFound(w, leg), ClearBody)
  {
    LookChangesNothing(w, Ends(leg));
    var w1 := Next(w, Ends(leg));
    LookChangesNothing(w1, Observe(leg));
    DoChanges(Next(w1, Observe(leg)), leg, ClearBody);
  }

  lemma {:induction false} CheckChangesNothing(w: World, leg: Leg)
    ensures CheckEmptyStep(w, leg).0.changes == w.changes
  {
    LookChangesNothing(w, Ends(leg));
    var w1 := Next(w, Ends(leg));
    LookChangesNothing(w1, Observe(leg));
    LookChangesNothing(w1, Residue(leg));
    LookChangesNothing(Next(w1, Residue(leg)), Observe(leg));
  }

  lemma {:induction false} FillChanges(w: World, leg: Leg, pages: int, signature: string)
    ensures FillStep(w, leg, pages, signature).0.changes == w.changes + [InsertBlock]
  {
    DoChanges(w, leg, InsertBlock);
    var w1 := Next(w, Do(leg, InsertBlock));
    LookChangesNothing(w1, Observe(leg));
    VerifyChangesNothing(Next(w1, Observe(leg)), leg, pages, signature, Demand(false, false));
  }

  /** A block restore deletes the body if it finds one, and inserts the block exactly when the body has then been seen
      empty: in every run, towards the checkpoint and back. */
  lemma {:induction false} BlockChanges(w: World, leg: Leg, pages: int, signature: string)
    ensures var (w1, cleared) := ClearBodyStep(w, leg);
      (cleared ==> w1.empty) &&
      BlockStep(w, leg, pages, signature).0.changes ==
      w.changes + If(BodyFound(w, leg), ClearBody) + If(cleared, InsertBlock)
  {
    ClearBodyRuns(w, leg);
    DeleteChanges(w, leg);
    CheckChangesNothing(DeleteBodyStep(w, leg).0, leg);
    FillChanges(ClearBodyStep(w, leg).0, leg, pages, signature);
  }

  /** An engine that never says no. */
  ghost predicate Obliging(script: Script) {
    forall n, c :: script(n, c).ok
  }

  lemma {:induction false} ObligingDeletes(w: World, leg: Leg)
    requires Obliging(w.script)
    ensures var (v, ok) := DeleteBodyStep(w, leg); ok && v.script == w.script
    ensures BodyFound(w, leg) <==> !Reply(w, Ends(leg)).same
  {
    LookChangesNothing(w, Ends(leg));
    var w1 := Next(w, Ends(leg));
    LookChangesNothing(w1, Observe(leg));
    DoChanges(Next(w1, Observe(leg)), leg, ClearBody);
  }

  lemma {:induction false} ObligingIsEmpty(w: World, leg: Leg)
    requires Obliging(w.script)
    ensures CheckEmptyStep(w, leg).1
  {
    LookChangesNothing(w, Ends(leg));
    LookChangesNothing(Next(w, Ends(leg)), Residue(leg));
  }

  /** With such an engine a body that is not empty is deleted, and then the block is inserted. */
  lemma {:induction false} ObligingBlock(w: World, leg: Leg, pages: int, signature: string)
    requires Obliging(w.script)
    ensures BlockStep(w, leg, pages, signature).0.changes ==
            w.changes + (if Reply(w, Ends(leg)).same then [InsertBlock] else [ClearBody, InsertBlock])
  {
    BlockChanges(w, leg, pages, signature);
    ObligingDeletes(w, leg);
    ObligingIsEmpty(DeleteBodyStep(w, leg).0, leg);
  }

  // ----- a file -----

  lemma {:induction false} ArriveChangesNothing(w: World, leg: Leg)
    ensures ArriveStep(w, leg).0.changes == w.changes
  {
    LookChangesNothing(w, CheckPath(leg));
    LookChangesNothing(Next(w, CheckPath(leg)), Observe(leg));
  }

  lemma {:induction false} OpenChanges(w: World, leg: Leg, source: Source)
    ensures OpenStep(w, leg, source).0.changes ==
            w.changes + [CopyOver(source)] + If(Reply(w, Do(leg, CopyOver(source))).ok, Open)
  {
    DoChanges(w, leg, CopyOver(source));
    var w1 := Next(w, Do(leg, CopyOver(source)));
    DoChanges(w1, leg, Open);
    ArriveChangesNothing(Next(w1, Do(leg, Open)), leg);
  }

  /** What is done to open a file again: the slot is emptied if asked for, the file is replaced, and if that worked it
      is opened. */
  ghost predicate ReopensWith(w: World, v: World, source: Source, clear: bool) {
    exists copied: bool :: v.changes == w.changes + If(clear, Clear) + [CopyOver(source)] + If(copied, Open)
  }

  lemma {:induction false} ReopenChanges(
    w: World, leg: Leg, source: Source, pages: int, signature: string, clear: bool)
    ensures var (v, _, failed) := ReopenStep(w, leg, source, true, pages, signature, clear);
      ReopensWith(w, v, source, clear) && (failed <==> clear && !Reply(w, Do(leg, Clear)).ok)
  {
    var w1 := if clear then Next(w, Do(leg, Clear)) else w;
    DoChanges(w, leg, Clear);
    OpenChanges(w1, leg, source);
    var (w2, ok) := OpenStep(w1, leg, source);
    VerifyChangesNothing(w2, leg, pages, signature, Demand(false, true));
    var v := ReopenStep(w, leg, source, true, pages, signature, clear).0;
    var copied := Reply(w1, Do(leg, CopyOver(source))).ok;
    assert v.changes == w.changes + If(clear, Clear) + [CopyOver(source)] + If(copied, Open);
  }

  /** A document file that is not proved restored: the rollback from a file empties the slot again exactly when it could
      be emptied before. */
  lemma {:induction false} RollbackClearsAgain(w: World, layout: Layout, pages: int, target: Target,
                                               rollback: Rollback)
    requires layout.DocumentFile? && rollback.pathKnown && rollback.usesFile
    requires !ReplaceStep(w, layout, pages, target, rollback).1.Restored?
    ensures var v := ReplaceStep(w, layout, pages, target, rollback).0;
      exists u :: ReopensWith(w, u, FromCheckpoint, true) &&
                  ReopensWith(u, v, FromRecovery, Reply(w, Do(Forward, Clear)).ok)
  {
    ReopenChanges(w, Forward, FromCheckpoint, pages, target.signature, true);
    var (u, _, failed) := AttemptStep(w, layout, pages, target, true);
    ReopenChanges(u, Back, FromRecovery, rollback.pages, rollback.signature, !failed);
    assert ReopensWith(w, u, FromCheckpoint, true);
  }
}
