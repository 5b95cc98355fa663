# Hancom live bridge: verified models

This project models five parts of the native bridge add-on that compute something hard to get right, and proves what they promise. The Hancom engine, the operating system and the threads around them are adversaries: every answer they give is arbitrary.

* **Merged-cell tables.** `Geometry`, `CellAddress`, `Numerals`, `TableGrid`, `TopologyBuild`, `NeighbourOrder`, `NeighbourPaths`, `Regions`, `TablePlans`, `SelectionPlans`, `ColumnStacks`, `PlainGrids` and `CellTopology` follow `CellTopology.cpp`; `RowStacks` and `ReferenceLayout` follow the verifier in `ActionReferenceLayout.cpp`. A topology is accepted exactly when its cells tile a grid and link their neighbours; from that alone follow the acyclic neighbour graph, the shortest merge path, the smallest closed selection and the counting argument for a whole layout. Every table without merged cells is accepted, and any two of its cells can be merged.
* **Text patches.** `TextPositions`, `TextMatches`, `PatchReadback`, `LiveCells` and `TablePreflight` follow `ActionTextPatch.cpp` and `InsertText`. Three line-break scanners and two match scanners agree, and what the scanners choose is stated on the matches alone. The live cell is what typing leaves, letters and breaks, so a CR and an LF that meet at a seam stay two breaks; a batch stays in step with its dry run exactly when no match cuts a CR LF pair and no replacement forms one.
* **Capture spool and coordinator.** `ByteStreams`, `SegmentStream`, `StreamRuns`, `RecordSealing`, `SealedStream` and `FilePatches` follow `DocumentGraphCaptureSpool.cpp`; `AttemptComparison`, `CaptureProtocol` and `CaptureCoordinator` follow `DocumentGraphCapture.cpp`. Readers see the final stream under every interleaving; sealing and patching change only what they name; the two-attempt capture keeps its protocol with callbacks that answer anything, and its status is decided exactly by what they answered.
* **Checkpoints.** `CheckpointSignatures`, `EncodedBlocks`, `CheckpointMeta`, `RestoreWorld` and `CheckpointRestore` follow `ActionLifecycle.cpp`. The codecs round-trip under exact conditions. `CheckpointRestore` states each method by a step function on the world, from request and engine to outcome; `RestoreSteps`, `RestoreChanges`, `RestoreResults` and `RestorePromises` prove, for every engine, which outcome a restore has, what it has proved, and exactly when it has lost nothing, with the engine letting in edits of others while the copy is taken and authority is checked; `StubbornEngine` has the runs on which something is lost, and `ConcreteRestores` carries them out on files and signature lines as they are written.
* **Publications and write epochs.** `RotPublication` and `BridgeModule` follow `Bridge.cpp`; `WriteEpoch` follows the write brackets of `BatchAutomation.cpp`.

`Options` and `Counting` are shared helpers.

The engine, the host of a capture, the running object table and the files are classes whose answers come from a script that is an arbitrary function of the call and its number, so a contract about one run holds for every behaviour. The obligations that a protocol puts on its caller are preconditions of those classes' methods (`Host.Ask`, `Table.Release`) or recorded by the world that the engine keeps (`World.orderly`). Which answers were unfavourable is recorded by the script's side too (`Session.trouble`, `Session.causes`, `World.faults`, `Table.refusals`), never by the code under proof.

## Where code and promise differ

The proofs follow the code. These are the places where it does not do what its comments or messages say, each with its exact condition.

* A dry run and its batch part exactly when a match cuts a CR LF pair in two or a replacement forms one with its neighbours (`CellAgrees`, `SafePatchDecides`, `InStepWhenSafe`). `UnsafeFillDiverges` is a batch of the first kind; `SeamFillDiverges` is one of the second, in which both searches are safe.
* A record whose bytes cannot be stored after its offset was appended is refused, but leaves one offset too many (`CollectRecord`). Reads and views answer as before all the same.
* A seal that succeeds can leave a node with its old fingerprint, exactly when two descriptors name the same node (`EveryNodeSealed`, `SuccessCanMissANode`). Callers check that fingerprints are unique, not that descriptors are.
* A detached artifact can be left behind: all of them are given back exactly when nothing was detached, or the worker was joined and either attempt one detached nothing or the worker succeeded and the first retention was not refused after both results were built (`WhenAllGivenBack`; a run is `CaptureThatLeaks`).
* A suite with a finish callback and a detach callback but no retain callback passes the coordinator's validation (`RetentionMayBeAbsent`) and selects the pipeline, because the pipeline is chosen by the detach callback alone, while the header (`DocumentGraphCapture.h:346-348`) says it is used when both are present. Such a capture calls the absent callback on some hosts and no other valid suite's does on any (`CaptureWithoutRetention`, the last clause of `Capture`).
* What a restore may lose, with the exact condition for every run in `WhenNothingIsLost` and a run for each way in `StubbornEngine`:
  * It can be refused after the save of the recovery copy has moved the session: the capture then saves the document over the user's own file, before identity and authority are checked, and if that save fails the copy is removed (`RefusalUntouched`, `RefusalCanLose`).
  * If the move of the session is not seen because the path cannot be read back, the session stays on the copy, which every way out but one deletes, although the comment at `ActionLifecycle.cpp:1073-1078` says nothing is assumed (`SessionCanBeLost`).
  * A rollback whose content cannot be read back is accepted on its page count, and the copy is then deleted: proved by content exactly when the signature read back is not empty (`RollbackByContent`, `RollbackCanLose`).
  * After a failed document-file restore, an accepted rollback from an encoded block leaves the user's file on disk overwritten, although the call reports that the previous document was restored (`RollbackLeavesFile`, `RollbackCanLose`).
  * After an Undo that missed, a Redo is reported to have restored the exact state this call found when it matches the sidecar's origin; that is so exactly when the origin matches the signature that was found, which is never compared (`OriginCanLose`).
  * An edit that arrives after the copy was taken is not in it, and passes the check of authority, which compares the document with the caller's signature and not with the copy's (`WhenCopyIsCurrent`, `CopyCanBeStale`).
  * A kept copy that is a block with a NUL character, or with a signature that does not fit a line, cannot be read back (`KeptBlockReadsBack`, `CopyCanBeUnreadable`).
* Signature lines of older versions are not matched symmetrically, and a line that leaves its text unknown does not match itself (`WhenOrderMatters`, `WhenSelfMatches`).
* A block with a NUL character is saved but cannot be read back, and the first 4096 bytes of a sidecar are all that is read (`BlockRoundTrip`, `NulIsNotReadBack`, `MetaRoundTrip`).
* A receipt taken in the last epoch before the counter wraps is refused even if nothing happened, because the epoch before zero is formed in 64 bits; and a writer that is already at work when a receipt is taken is not noticed (`SoleBoundary`, `OpenWriterGoesUnnoticed`).
* Four failure branches cannot be reached on an accepted topology: the slot count of a merge region, uncovered selection corners, the outside-the-grid test of the verifier, and a size refusal for different endpoints.

## Model

| member | source | states |
|---|---|---|
| `CellAddress.ParseCellAddress` | plugins/gsg-hwp/addon/HancomLiveBridgeNative/CellTopology.cpp:38-72 | the parser accepts exactly a letter run followed by a digit run and nothing else, with 64-bit wrap-around in both accumulators and the 32-bit range test after them |
| `CellAddress.WhenParsed` | plugins/gsg-hwp/addon/HancomLiveBridgeNative/CellTopology.cpp:38-72 | a text denotes a place exactly when, in whatever case, it is a run of letters and then a run of digits whose values are in range |
| `CellAddress.ReferenceCellAddress` | plugins/gsg-hwp/addon/HancomLiveBridgeNative/ActionReferenceLayout.cpp:13-20 | the do-while loop computes the bijective base-26 column and the decimal row |
| `CellAddress.ColumnRoundTrip` | plugins/gsg-hwp/addon/HancomLiveBridgeNative/ActionReferenceLayout.cpp:13-19 | every non-empty letter string names exactly one column |
| `CellAddress.AddressRoundTrip` | plugins/gsg-hwp/addon/HancomLiveBridgeNative/CellTopology.cpp:38-72 | parsing a formatted address gives back row and column plus one for every 32-bit row and column; only the last row or column is refused |
| `CellAddress.ParseSelectedCellAddresses` | plugins/gsg-hwp/addon/HancomLiveBridgeNative/CellTopology.cpp:74-121 | the scan returns the address tokens of any text, later duplicates dropped, and fails exactly when there are none |
| `CellAddress.SelectionRoundTrip` | plugins/gsg-hwp/addon/HancomLiveBridgeNative/CellTopology.cpp:74-121 | a list of addresses joined by separators, behind any prefix without letters, is read back as the list of its first occurrences |
| `CellAddress.WordIsSkipped` | plugins/gsg-hwp/addon/HancomLiveBridgeNative/CellTopology.cpp:86-103 | a word of letters without digits behind it is no address and is skipped |
| `CellAddress.TokensInAnyCase` | plugins/gsg-hwp/addon/HancomLiveBridgeNative/CellTopology.cpp:74-121 | the case in which a command is written makes no difference to the addresses read |
| `Geometry.AreaDecidesCover` | plugins/gsg-hwp/addon/HancomLiveBridgeNative/CellTopology.cpp:186-193 | disjoint rectangles inside an area leave no gap exactly when their areas add up to it |
| `TopologyBuild.LocateCells` | plugins/gsg-hwp/addon/HancomLiveBridgeNative/CellTopology.cpp:123-157 | the first pass keeps every raw cell (its own address and its own right and lower neighbour in upper case, its list id, spans and sizes) and indexes it, or reports a fault that the cells really have |
| `TopologyBuild.AssignOwners` | plugins/gsg-hwp/addon/HancomLiveBridgeNative/CellTopology.cpp:158-193 | the slot-by-slot pass accepts exactly the cells that tile the grid, and tells an overlap from a gap |
| `TopologyBuild.CheckNeighbours` | plugins/gsg-hwp/addon/HancomLiveBridgeNative/CellTopology.cpp:194-204 | the neighbour pass accepts exactly the cells whose right and down links name the expected neighbours |
| `TopologyBuild.Examine` | plugins/gsg-hwp/addon/HancomLiveBridgeNative/CellTopology.cpp:123-206 | all checks together accept exactly the acceptable tables, keep the raw cells, and then produce the owner index of an exact cover |
| `TableGrid.OwnerInCorrect` | plugins/gsg-hwp/addon/HancomLiveBridgeNative/CellTopology.cpp:252-266 | a slot has an owner exactly when it lies in the grid, and the owner is the only cell that covers it |
| `CellTopology.CellTopology.Build` | plugins/gsg-hwp/addon/HancomLiveBridgeNative/CellTopology.cpp:123-214 | the build succeeds exactly on acceptable tables and then holds the raw cells with their own links, spans, ids and sizes; a failed build changes nothing in the object |
| `PlainGrids.PlainTableIsAccepted` | plugins/gsg-hwp/addon/HancomLiveBridgeNative/CellTopology.cpp:123-214 | every table within the slot limit that has one cell for each slot, each naming the cells to its right and below, is accepted, in whatever order and case the cells come |
| `PlainGrids.PlainMerge` | plugins/gsg-hwp/addon/HancomLiveBridgeNative/CellTopology.cpp:314-404 | on such a table any two different cells, the second not above or left of the first, can be merged, along a path with one step for each row and each column between them |
| `CellTopology.CellTopology.Find` | plugins/gsg-hwp/addon/HancomLiveBridgeNative/CellTopology.cpp:243-250 | the cell found has the normalised address; nothing found means no cell has it |
| `CellTopology.CellTopology.OwnerAt` | plugins/gsg-hwp/addon/HancomLiveBridgeNative/CellTopology.cpp:252-266 | present exactly for the slots of the grid, and then the one cell that covers the slot |
| `CellTopology.CellTopology.InvalidateGeometry` | plugins/gsg-hwp/addon/HancomLiveBridgeNative/CellTopology.cpp:224-229 | only the measured sizes are forgotten |
| `CellTopology.CellTopology.HasSamePhysicalShape` | plugins/gsg-hwp/addon/HancomLiveBridgeNative/CellTopology.cpp:272-293 | the one-way comparison holds exactly when both topologies have the same extent and the same cells |
| `CellTopology.CellTopology.IntersectingColumn` | plugins/gsg-hwp/addon/HancomLiveBridgeNative/CellTopology.cpp:295-312 | the column's cells, each once, in reading order, stacked without a gap from the first row to the last |
| `CellTopology.CellTopology.PlanRectangularMerge` | plugins/gsg-hwp/addon/HancomLiveBridgeNative/CellTopology.cpp:314-404 | each outcome of the merge planner happens only for its own reason, and a plan holds the whole region and a shortest path through it |
| `CellTopology.CellTopology.PlanSelectionByListId` | plugins/gsg-hwp/addon/HancomLiveBridgeNative/CellTopology.cpp:406-477 | a plan selects exactly the cells of the smallest rectangle that no cell straddles around the two cells; every failure is the one its cause demands |
| `CellTopology.CellTopology.PlanSelectionByAddress` | plugins/gsg-hwp/addon/HancomLiveBridgeNative/CellTopology.cpp:479-530 | the same for any list of selected addresses, decided by the owners of the corners around them |
| `NeighbourOrder.FirstExists` | plugins/gsg-hwp/addon/HancomLiveBridgeNative/CellTopology.cpp:158-204 | among any of the cells one has no other of them before it: the staircase can always be grown by a cell |
| `NeighbourOrder.WalkClimbs` | plugins/gsg-hwp/addon/HancomLiveBridgeNative/CellTopology.cpp:194-204 | every step to a right or down neighbour raises the rank |
| `NeighbourOrder.NoCycle` | plugins/gsg-hwp/addon/HancomLiveBridgeNative/CellTopology.cpp:194-204 | no walk over right and down neighbours comes back, so it is no longer than the number of cells |
| `TablePlans.ChainNeverRepeats` | plugins/gsg-hwp/addon/HancomLiveBridgeNative/CellTopology.cpp:364-400 | in an accepted topology no chain of recorded neighbours repeats a cell, and it is shorter than the number of cells |
| `NeighbourPaths.FindPath` | plugins/gsg-hwp/addon/HancomLiveBridgeNative/CellTopology.cpp:364-400 | the breadth-first search ends; it returns a chain inside the region from start to end that no other undercuts, and no path only if there is no chain |
| `NeighbourPaths.ChainReached` | plugins/gsg-hwp/addon/HancomLiveBridgeNative/CellTopology.cpp:364-392 | any chain has been overtaken by the search or is longer than the level it expands |
| `NeighbourPaths.ExhaustedUnreachable` | plugins/gsg-hwp/addon/HancomLiveBridgeNative/CellTopology.cpp:364-397 | an empty queue proves that no chain reaches a cell not discovered |
| `NeighbourPaths.ReadBack` | plugins/gsg-hwp/addon/HancomLiveBridgeNative/CellTopology.cpp:393-400 | the path read back over the recorded predecessors is the one by which the end was discovered |
| `Regions.RegionTiles` | plugins/gsg-hwp/addon/HancomLiveBridgeNative/CellTopology.cpp:332-349 | the cells inside a rectangle that none straddles tile it |
| `Regions.SlotCountNeverDiffers` | plugins/gsg-hwp/addon/HancomLiveBridgeNative/CellTopology.cpp:350-356 | so the slot count after the straddling test always equals the rectangle, and its failure branch is dead |
| `TablePlans.SizeTests` | plugins/gsg-hwp/addon/HancomLiveBridgeNative/CellTopology.cpp:350-362 | a region is refused for its size only when start and end are the same cell |
| `TablePlans.PlanMerge` | plugins/gsg-hwp/addon/HancomLiveBridgeNative/CellTopology.cpp:314-404 | the planner on cells, as the class method states it |
| `Regions.CornersForced` | plugins/gsg-hwp/addon/HancomLiveBridgeNative/CellTopology.cpp:406-530 | any closed rectangle around the selection holds the owners of its corners |
| `Regions.SpanSmallest` | plugins/gsg-hwp/addon/HancomLiveBridgeNative/CellTopology.cpp:406-530 | once no cell straddles it, the rectangle spanned by the corner owners is the smallest closed one |
| `Regions.SmallestThroughCorners` | plugins/gsg-hwp/addon/HancomLiveBridgeNative/CellTopology.cpp:479-530 | replacing a selection by its corner owners does not change its smallest closed rectangle |
| `SelectionPlans.RegionIsInside` | plugins/gsg-hwp/addon/HancomLiveBridgeNative/CellTopology.cpp:332-349 | the region is exactly the set of cells inside the rectangle |
| `SelectionPlans.CornersCovered` | plugins/gsg-hwp/addon/HancomLiveBridgeNative/CellTopology.cpp:440-470 | in an exact cover the corners of a selection always have owners, so that failure is dead |
| `ColumnStacks.ColumnIsStacked` | plugins/gsg-hwp/addon/HancomLiveBridgeNative/CellTopology.cpp:295-312 | the sorted cells of a column follow each other without a gap from row one to the last row |
| `ReferenceLayout.CountDecides` | plugins/gsg-hwp/addon/HancomLiveBridgeNative/ActionReferenceLayout.cpp:482-509 | with all merges present, the cell count is the expected one exactly when every other cell is one slot, whatever the unsigned subtraction wraps |
| `ReferenceLayout.SlotAsRequested` | plugins/gsg-hwp/addon/HancomLiveBridgeNative/ActionReferenceLayout.cpp:482-509 | a verified table is determined slot by slot |
| `ReferenceLayout.VerifyTopology` | plugins/gsg-hwp/addon/HancomLiveBridgeNative/ActionReferenceLayout.cpp:469-534 | success means a rebuilt topology, the requested dimensions, merges, single slots and sizes everywhere, and the borders read back; each failure has its cause, the dimension failure exactly; the outside-the-grid failure is dead |
| `ReferenceLayout.ColumnHeight` | plugins/gsg-hwp/addon/HancomLiveBridgeNative/ActionReferenceLayout.cpp:510-533 | when all heights are measured, the cells of any column add up to the requested row heights |
| `RowStacks.RowIsSideBySide` | plugins/gsg-hwp/addon/HancomLiveBridgeNative/ActionReferenceLayout.cpp:510-533 | on an exact cover the cells that meet a row, by column, follow each other without a gap from the first column to the last |
| `ReferenceLayout.RowWidth` | plugins/gsg-hwp/addon/HancomLiveBridgeNative/ActionReferenceLayout.cpp:516-530 | when all widths are measured, the cells of any row add up to the requested column widths |
| `ReferenceLayout.WidthsAddUp` | plugins/gsg-hwp/addon/HancomLiveBridgeNative/ActionReferenceLayout.cpp:516-520 | the width expected of a merged cell is that of its two parts together, however it is cut; and `HeightsAddUp` says the same of heights |
| `TextPositions.TextPositionAtOffset` | plugins/gsg-hwp/addon/HancomLiveBridgeNative/ActionTextPatch.cpp:722-742 | the caret position of an offset, by paragraph and character |
| `TextPositions.NormalizeLineBreaks` | plugins/gsg-hwp/addon/HancomLiveBridgeNative/ActionReferenceLayout.cpp:136-150 | every CR LF, CR or LF becomes one line feed |
| `TextPositions.InsertText` | plugins/gsg-hwp/addon/HancomLiveBridgeNative/ActionTable.cpp:719-748 | the loop carries out the segments and breaks of the text in order, up to the first refusal, and reports a partial change exactly when it did something |
| `TextPositions.InsertionAgrees` | plugins/gsg-hwp/addon/HancomLiveBridgeNative/ActionTable.cpp:719-748 | after insertion the caret is where the offset scanner puts the end of the text, and what was typed is the normalised text |
| `TextPositions.StepForward` | plugins/gsg-hwp/addon/HancomLiveBridgeNative/ActionTextPatch.cpp:722-742 | each offset moves the position forward, except the one inside a CR LF pair |
| `TextPositions.PositionsFollowOffsets` | plugins/gsg-hwp/addon/HancomLiveBridgeNative/ActionTextPatch.cpp:1547-1555 | positions are ordered exactly as the offsets are, up to half pairs |
| `TextPositions.OverlapDecided` | plugins/gsg-hwp/addon/HancomLiveBridgeNative/ActionTextPatch.cpp:1557-1561 | selections of two ranges overlap exactly when the ranges do up to half pairs; disjoint ranges never overlap |
| `TextMatches.TextMatchesAt` | plugins/gsg-hwp/addon/HancomLiveBridgeNative/ActionTextPatch.cpp:483-502 | the comparison loop decides a match at an offset |
| `TextMatches.ScanCell` | plugins/gsg-hwp/addon/HancomLiveBridgeNative/ActionTextPatch.cpp:768-823 | the early-exit scanner with its cap of 24 gives the right answer: with no occurrence asked for the match that is the only one to be had without overlap, ambiguity exactly when two can be had, and with the n-th asked for the n-th of the leftmost matches |
| `TextMatches.ScanShadow` | plugins/gsg-hwp/addon/HancomLiveBridgeNative/ActionTextPatch.cpp:1365-1431 | the collect-all scanner gives the right answer for all legal arguments, and names the illegal ones |
| `TextMatches.OneRightChoice` | plugins/gsg-hwp/addon/HancomLiveBridgeNative/ActionTextPatch.cpp:768-823 | for every text and search one answer is right and no other is |
| `TextMatches.LeftmostIsOne` | plugins/gsg-hwp/addon/HancomLiveBridgeNative/ActionTextPatch.cpp:768-800 | there is one sequence of matches without overlap inside which every match starts |
| `TextMatches.GreedyApart` | plugins/gsg-hwp/addon/HancomLiveBridgeNative/ActionTextPatch.cpp:768-800 | the chosen matches do not overlap |
| `TextMatches.GreedyLeavesNothing` | plugins/gsg-hwp/addon/HancomLiveBridgeNative/ActionTextPatch.cpp:768-800 | every match starts inside a chosen one |
| `TextMatches.GreedyStaysAhead` | plugins/gsg-hwp/addon/HancomLiveBridgeNative/ActionTextPatch.cpp:768-800 | no set of non-overlapping matches is larger, and none is ahead of the chosen ones anywhere |
| `PatchReadback.PatchAgrees` | plugins/gsg-hwp/addon/HancomLiveBridgeNative/ActionTextPatch.cpp:744-824 | the engine replaces the shadow's own range of the text exactly when the match cuts no CR LF pair in two |
| `PatchReadback.SplitStartRefused` | plugins/gsg-hwp/addon/HancomLiveBridgeNative/ActionTextPatch.cpp:744-824 | a match that starts inside a pair is refused live |
| `PatchReadback.SplitEndDiverges` | plugins/gsg-hwp/addon/HancomLiveBridgeNative/ActionTextPatch.cpp:744-824 | a match that ends inside a pair takes the other half with it live |
| `PatchReadback.SafeSearchDecides` | plugins/gsg-hwp/addon/HancomLiveBridgeNative/ActionTextPatch.cpp:744-824 | a search selects whole matches on every text exactly when it neither starts with LF nor ends with CR |
| `LiveCells.UnitsAreTyped` | plugins/gsg-hwp/addon/HancomLiveBridgeNative/ActionTable.cpp:719-748 | the cell that typing a text leaves: its end is where the typed segments and breaks put the caret, and it reads as the normalised text |
| `LiveCells.UnitsConcat` | plugins/gsg-hwp/addon/HancomLiveBridgeNative/ActionTable.cpp:719-748 | typing two texts after each other leaves what typing them together leaves, unless CR and LF meet between them |
| `LiveCells.CellAgrees` | plugins/gsg-hwp/addon/HancomLiveBridgeNative/ActionTextPatch.cpp:1365-1431 | the live cell becomes what the shadow predicts, or both refuse, exactly when the chosen match cuts no CR LF pair and the replacement forms none with its neighbours |
| `LiveCells.LiveChoice` | plugins/gsg-hwp/addon/HancomLiveBridgeNative/ActionTextPatch.cpp:768-823 | a live patch replaces between the positions of the match that it asks for, and refuses when that is no one match |
| `LiveCells.SafePatchDecides` | plugins/gsg-hwp/addon/HancomLiveBridgeNative/ActionTextPatch.cpp:1365-1431 | that holds on every text exactly for searches that neither start with LF nor end with CR and replacements that are not empty and do neither |
| `TablePreflight.ClassifyTableTextBatch` | plugins/gsg-hwp/addon/HancomLiveBridgeNative/ActionTextPatch.cpp:1265-1307 | a batch is a fill batch exactly when it selects and captures one table and then only changes texts, its own; and an expansion exactly when it goes to a cell, appends rows and then only changes texts |
| `TablePreflight.ValidateCellTextPatchLimit` | plugins/gsg-hwp/addon/HancomLiveBridgeNative/ActionTextPatch.cpp:1309-1336 | the counting pass refuses exactly the batches with more than a hundred patches in one cell |
| `TablePreflight.ReadShadowCell` | plugins/gsg-hwp/addon/HancomLiveBridgeNative/ActionTextPatch.cpp:1338-1363 | a cell is read from the shadow if it is there and copied into it from the document otherwise |
| `TablePreflight.ApplyShadow` | plugins/gsg-hwp/addon/HancomLiveBridgeNative/ActionTextPatch.cpp:1365-1431 | one command applied to a shadow text: the new text, in which the match asked for is replaced, or exactly the one error whose cause holds on the matches |
| `TablePreflight.AmbiguousIsRefused` | plugins/gsg-hwp/addon/HancomLiveBridgeNative/ActionTextPatch.cpp:812-817 | where two matches stand side by side, a patch that asks for the only one is refused live and in the dry run, and changes neither cell nor text |
| `TablePreflight.ExpansionTries` | plugins/gsg-hwp/addon/HancomLiveBridgeNative/ActionTextPatch.cpp:1466-1478 | the dry run of an expansion tries exactly the patches and the texts that expect an old text |
| `TablePreflight.NewCellsUnseen` | plugins/gsg-hwp/addon/HancomLiveBridgeNative/ActionTextPatch.cpp:1466-1478 | a text for a cell that is not there is refused in a fill batch and taken unseen in an expansion |
| `TablePreflight.PreflightBatch` | plugins/gsg-hwp/addon/HancomLiveBridgeNative/ActionTextPatch.cpp:1460-1519 | the loop of the dry run is the run of the tried commands over a shadow that starts empty |
| `TablePreflight.PreflightTableTextCommands` | plugins/gsg-hwp/addon/HancomLiveBridgeNative/ActionTextPatch.cpp:1433-1545 | the patch limit is decided first, then whether there is anything to try, then whether the cursor can be kept; a fill or expansion batch whose cursor is kept is accepted exactly when its dry run succeeds, with its shadow texts |
| `TablePreflight.TextAgrees` | plugins/gsg-hwp/addon/HancomLiveBridgeNative/ActionTextPatch.cpp:1365-1431 | one legal command leaves live what it leaves in the shadow exactly when it is safe on the text it finds |
| `TablePreflight.InStepWhenSafe` | plugins/gsg-hwp/addon/HancomLiveBridgeNative/ActionTextPatch.cpp:1433-1545 | an accepted batch does live, command by command, what it did in its dry run exactly when every command is safe on the text that the dry run finds |
| `TablePreflight.PreflightSimulates` | plugins/gsg-hwp/addon/HancomLiveBridgeNative/ActionTextPatch.cpp:1433-1545 | if the dry run of a safe batch is accepted, no real command meets a stale, missing or ambiguous text, and both end alike |
| `TablePreflight.SafeCommandsRun` | plugins/gsg-hwp/addon/HancomLiveBridgeNative/ActionTextPatch.cpp:1433-1545 | a batch of safe searches and safe replacements is safe on whatever texts it finds |
| `TablePreflight.PreflightDecides` | plugins/gsg-hwp/addon/HancomLiveBridgeNative/ActionTextPatch.cpp:1433-1545 | and the dry run refuses nothing that would have worked |
| `TablePreflight.AcceptedFillRuns` | plugins/gsg-hwp/addon/HancomLiveBridgeNative/ActionTextPatch.cpp:1433-1545 | an accepted fill batch ends with exactly the shadow texts over otherwise untouched cells |
| `TablePreflight.UnsafeFillDiverges` | plugins/gsg-hwp/addon/HancomLiveBridgeNative/ActionTextPatch.cpp:1365-1431 | a concrete batch with a search ending in CR passes its dry run and then leaves another text |
| `TablePreflight.SeamFillDiverges` | plugins/gsg-hwp/addon/HancomLiveBridgeNative/ActionTextPatch.cpp:1365-1431 | a concrete batch of two safe searches passes its dry run, forms a CR LF pair at the edge of its first replacement, and is refused live at its second patch |
| `SegmentStream.SegmentedRecords.CollectRecord` | plugins/gsg-hwp/addon/HancomLiveBridgeNative/DocumentGraphCaptureSpool.cpp:85-101 | a record is appended exactly when it is not empty and both allocations succeed; a refusal changes no content, leaves the stream readable, and leaves one offset too many exactly when the offset went in and the record did not |
| `SegmentStream.SegmentedRecords.ReadSegments` | plugins/gsg-hwp/addon/HancomLiveBridgeNative/DocumentGraphCaptureSpool.cpp:103-136 | once its range has arrived or the stream has ended, a read copies exactly that slice, or is refused exactly when the stream ends before it, also with an offset too many; the rest of the buffer is untouched |
| `SegmentStream.SegmentedRecords.ViewSegmentRecord` | plugins/gsg-hwp/addon/HancomLiveBridgeNative/DocumentGraphCaptureSpool.cpp:138-152 | the record that starts at the offset, if one does, also with an offset too many |
| `SegmentStream.SegmentedRecords.CompleteSegments` | plugins/gsg-hwp/addon/HancomLiveBridgeNative/DocumentGraphCaptureSpool.cpp:168-175 | marks the stream complete |
| `SegmentStream.CopySlice` | plugins/gsg-hwp/addon/HancomLiveBridgeNative/DocumentGraphCaptureSpool.cpp:119-135 | the copy loop across record boundaries yields the slice of the flat stream |
| `SegmentStream.FindStart` | plugins/gsg-hwp/addon/HancomLiveBridgeNative/DocumentGraphCaptureSpool.cpp:144-149 | the lower bound finds the only record that starts at an offset, or none does |
| `StreamRuns.RunIsSafe` | plugins/gsg-hwp/addon/HancomLiveBridgeNative/DocumentGraphCaptureSpool.cpp:85-175 | in every interleaving a reader that sleeps although its range is there has a notification coming |
| `StreamRuns.NobodyStaysBlocked` | plugins/gsg-hwp/addon/HancomLiveBridgeNative/DocumentGraphCaptureSpool.cpp:110-114 | once the stream is complete nobody falls asleep, and after its notification nobody is asleep and every waiting reader may return |
| `StreamRuns.NextStepReturns` | plugins/gsg-hwp/addon/HancomLiveBridgeNative/DocumentGraphCaptureSpool.cpp:110-136 | and then the next step that a waiting reader takes, whenever that is, is its return with the answer of the final stream |
| `StreamRuns.ReadsSeeTheFinalStream` | plugins/gsg-hwp/addon/HancomLiveBridgeNative/DocumentGraphCaptureSpool.cpp:103-136 | whenever a read returns, its answer is the one the final stream gives |
| `StreamRuns.ViewsSeeTheFinalStream` | plugins/gsg-hwp/addon/HancomLiveBridgeNative/DocumentGraphCaptureSpool.cpp:138-152 | whenever a record is viewed, it is the record and the slice of the final stream there |
| `StreamRuns.MissesAreFinal` | plugins/gsg-hwp/addon/HancomLiveBridgeNative/DocumentGraphCaptureSpool.cpp:138-152 | a miss on a complete stream is final |
| `RecordSealing.CollectPrints` | plugins/gsg-hwp/addon/HancomLiveBridgeNative/DocumentGraphCaptureSpool.cpp:192-197 | the fingerprints by node; exactly a repeated node refuses the seal |
| `RecordSealing.ManifestWrites` | plugins/gsg-hwp/addon/HancomLiveBridgeNative/DocumentGraphCaptureSpool.cpp:222-240 | the five writes into the manifest value are one write of two flags and three roots at their places |
| `RecordSealing.SealSegmentedRecords` | plugins/gsg-hwp/addon/HancomLiveBridgeNative/DocumentGraphCaptureSpool.cpp:177-256 | the seal succeeds exactly on the stated conditions, keeps every record boundary, and changes no byte that no descriptor seals |
| `RecordSealing.SealIsWrite` | plugins/gsg-hwp/addon/HancomLiveBridgeNative/DocumentGraphCaptureSpool.cpp:200-252 | one accepted descriptor is one write of its sealed window into the flat stream |
| `RecordSealing.RunIsFlat` | plugins/gsg-hwp/addon/HancomLiveBridgeNative/DocumentGraphCaptureSpool.cpp:200-252 | sealing the records, descriptor by descriptor, is simulated by a run over the flat stream |
| `RecordSealing.SealedOutside` | plugins/gsg-hwp/addon/HancomLiveBridgeNative/DocumentGraphCaptureSpool.cpp:200-252 | any prefix of the descriptors keeps the boundaries and all bytes outside |
| `SealedStream.SealedInPlace` | plugins/gsg-hwp/addon/HancomLiveBridgeNative/DocumentGraphCaptureSpool.cpp:200-252 | with windows apart, every value named so far holds its sealed form |
| `SealedStream.RootsInPlace` | plugins/gsg-hwp/addon/HancomLiveBridgeNative/DocumentGraphCaptureSpool.cpp:222-240 | after success the one manifest value holds the flags and roots |
| `SealedStream.FingerprintsInPlace` | plugins/gsg-hwp/addon/HancomLiveBridgeNative/DocumentGraphCaptureSpool.cpp:241-252 | after success every other value holds the fingerprint of its node |
| `SealedStream.EveryNodeSealed` | plugins/gsg-hwp/addon/HancomLiveBridgeNative/DocumentGraphCaptureSpool.cpp:254-255 | after success every node is sealed exactly when no two descriptors name the same node |
| `SealedStream.SuccessCanMissANode` | plugins/gsg-hwp/addon/HancomLiveBridgeNative/DocumentGraphCaptureSpool.cpp:254-255 | a concrete stream on which the seal succeeds and one node keeps its old value |
| `FilePatches.PatchesMatch` | plugins/gsg-hwp/addon/HancomLiveBridgeNative/DocumentGraphCaptureSpool.cpp:378-389 | every patch is in place |
| `FilePatches.PatchedHolds` | plugins/gsg-hwp/addon/HancomLiveBridgeNative/DocumentGraphCaptureSpool.cpp:391-417 | ascending patches, written one after the other, are all in place afterwards and change nothing else |
| `FilePatches.ApplyPatches` | plugins/gsg-hwp/addon/HancomLiveBridgeNative/DocumentGraphCaptureSpool.cpp:391-419 | success exactly when the patches are placed and every write and flush succeeds; then all match and file equals memory; whatever happens nothing outside the patches changes |
| `AttemptComparison.ComputeAttemptMismatchBits` | plugins/gsg-hwp/addon/HancomLiveBridgeNative/DocumentGraphCapture.cpp:361-443 | a bit is raised exactly when what it names differs; no bit exactly when the attempts agree in everything compared |
| `AttemptComparison.FindFirstFingerprintDivergence` | plugins/gsg-hwp/addon/HancomLiveBridgeNative/DocumentGraphCapture.cpp:590-617 | the first node of the first attempt that the second names with another fingerprint, and how many were examined |
| `CaptureProtocol.LogsBalance` | plugins/gsg-hwp/addon/HancomLiveBridgeNative/DocumentGraphCapture.cpp:624-916 | the balance of begun and closed sessions, attempts, releases, restorations and publications at every point of any log |
| `CaptureProtocol.ClosedLogs` | plugins/gsg-hwp/addon/HancomLiveBridgeNative/DocumentGraphCapture.cpp:624-916 | outside a session: one abort or commit per session begun, one release and one restoration per attempt begun, one commit per successful publication |
| `CaptureProtocol.SerialsIncrease` | plugins/gsg-hwp/addon/HancomLiveBridgeNative/DocumentGraphCapture.cpp:655-666 | a later session has a larger serial |
| `CaptureProtocol.PublicationsAreSound` | plugins/gsg-hwp/addon/HancomLiveBridgeNative/DocumentGraphCapture.cpp:853-912 | every publication offered carries two complete, agreeing attempts and two restorations equal to the baseline, with no trouble before and no worker running |
| `CaptureProtocol.CausesAreLogged` | plugins/gsg-hwp/addon/HancomLiveBridgeNative/DocumentGraphCapture.cpp:674-682 | what the protocol notes as causes is what the events of the last session in the log say |
| `CaptureCoordinator.RunReaders` | plugins/gsg-hwp/addon/HancomLiveBridgeNative/DocumentGraphCapture.cpp:719-739 | the seven readers run in order until one fails, is cancelled or an injected failure is reached |
| `CaptureCoordinator.Restore` | plugins/gsg-hwp/addon/HancomLiveBridgeNative/DocumentGraphCapture.cpp:767-782 | the document is put back; what each answer of the restoration makes of the attempt, which survives only if the state read back equals the baseline |
| `CaptureCoordinator.RunAttempt` | plugins/gsg-hwp/addon/HancomLiveBridgeNative/DocumentGraphCapture.cpp:700-788 | an attempt survives exactly when nothing went wrong in it; it keeps everything of the session that is not its own |
| `CaptureCoordinator.BuildResults` | plugins/gsg-hwp/addon/HancomLiveBridgeNative/DocumentGraphCapture.cpp:800-843 | the worker is joined first; its failure outranks that of the second attempt |
| `CaptureCoordinator.FinishArtifacts` | plugins/gsg-hwp/addon/HancomLiveBridgeNative/DocumentGraphCapture.cpp:800-851 | which artifacts have been given back in each ending and with which status, and where the pipeline is stuck without a retention callback |
| `CaptureCoordinator.WhenAllGivenBack` | plugins/gsg-hwp/addon/HancomLiveBridgeNative/DocumentGraphCapture.cpp:800-851 | every detached artifact has been given back exactly when nothing was detached, or the worker was joined and either attempt one detached nothing or the worker succeeded and the first retention was not refused after both results were built; `Capture` states it of every session it ends |
| `CaptureCoordinator.CaptureThatLeaks` | plugins/gsg-hwp/addon/HancomLiveBridgeNative/DocumentGraphCapture.cpp:789-800 | for every valid suite that detaches, a host whose worker cannot be started: the capture returns with the artifact of attempt zero detached and never given back |
| `CaptureCoordinator.CompareAndPublish` | plugins/gsg-hwp/addon/HancomLiveBridgeNative/DocumentGraphCapture.cpp:853-916 | publication happens exactly when the attempts agree and nothing fails; a traversal mismatch is reported only for a difference, a failed publication only for agreeing and restored attempts |
| `CaptureCoordinator.Coordinator.Capture` | plugins/gsg-hwp/addon/HancomLiveBridgeNative/DocumentGraphCapture.cpp:624-916 | for every suite that validation accepts: the capture keeps the protocol, completes exactly when every answer is favourable and no injected failure is reached, closes its session unless it calls a retention callback that is not there, and gives back every detached artifact exactly under the condition of `WhenAllGivenBack`; its status is decided exactly: a failed cleanup when the abort, a retention or the preparation of the publication was refused, and otherwise by the first cause, of attempt zero before the worker before attempt one: cancelled, not restored, another state, a mismatch, a refused publication, or else incomplete |
| `CaptureCoordinator.CaptureWithoutRetention` | plugins/gsg-hwp/addon/HancomLiveBridgeNative/DocumentGraphCapture.cpp:800-851 | for every valid suite, a host that obliges in everything: the capture calls the absent retention exactly when the suite detaches and cannot retain; by the contract of `Capture` no host makes it do so for another suite |
| `CaptureCoordinator.RetentionMayBeAbsent` | plugins/gsg-hwp/addon/HancomLiveBridgeNative/DocumentGraphCapture.cpp:59-76 | the validation accepts a suite that detaches and cannot retain |
| `CheckpointSignatures.SignatureRoundTrip` | plugins/gsg-hwp/addon/HancomLiveBridgeNative/ActionLifecycle.cpp:204-299 | a written signature is read back exactly when it counts at least one page and no control below zero |
| `CheckpointSignatures.OlderLines` | plugins/gsg-hwp/addon/HancomLiveBridgeNative/ActionLifecycle.cpp:240-299 | lines of older writers that end after the fixed fields, the marker or the presence are read as what they say, and a text of no length is taken to be empty |
| `CheckpointSignatures.WrittenIsComplete` | plugins/gsg-hwp/addon/HancomLiveBridgeNative/ActionLifecycle.cpp:301-318 | a written signature is complete exactly when its text facts are consistent and known and the document is not empty |
| `CheckpointSignatures.CompleteMatchIsKeyEquality` | plugins/gsg-hwp/addon/HancomLiveBridgeNative/ActionLifecycle.cpp:320-373 | complete signatures match exactly when their keys are equal |
| `CheckpointSignatures.CompleteMatchIsEquivalence` | plugins/gsg-hwp/addon/HancomLiveBridgeNative/ActionLifecycle.cpp:320-373 | matching is an equivalence among complete signatures, with and without the document fingerprint |
| `CheckpointSignatures.MatchesAgree` | plugins/gsg-hwp/addon/HancomLiveBridgeNative/ActionLifecycle.cpp:320-373 | two complete signatures match exactly when any signature, complete or not, that matches the one matches the other |
| `CheckpointSignatures.WhenOrderMatters` | plugins/gsg-hwp/addon/HancomLiveBridgeNative/ActionLifecycle.cpp:346-353 | matching depends on the order exactly when an older line meets one-sided text |
| `CheckpointSignatures.WhenSelfMatches` | plugins/gsg-hwp/addon/HancomLiveBridgeNative/ActionLifecycle.cpp:354-373 | a readable line fails to match itself exactly when its text is unknown or contradicts itself |
| `EncodedBlocks.SaveEncodedBlockFile` | plugins/gsg-hwp/addon/HancomLiveBridgeNative/ActionLifecycle.cpp:779-815 | a new file with the block's bytes exactly when the block can be saved and the file created and written; each failure has its own error, and what it leaves on disk is told |
| `EncodedBlocks.ReadEncodedBlockFile` | plugins/gsg-hwp/addon/HancomLiveBridgeNative/ActionLifecycle.cpp:1326-1456 | the block and signature exactly when the path is absolute, the file can be read in full and is a block file; path, open and read errors exactly for their causes |
| `EncodedBlocks.SavedLayout` | plugins/gsg-hwp/addon/HancomLiveBridgeNative/ActionLifecycle.cpp:880-891 | what is saved as a block is recognised as one |
| `EncodedBlocks.BlockRoundTrip` | plugins/gsg-hwp/addon/HancomLiveBridgeNative/ActionLifecycle.cpp:779-815 | what was saved is read back exactly when the block holds no NUL and the signature line is safe |
| `EncodedBlocks.NulIsNotReadBack` | plugins/gsg-hwp/addon/HancomLiveBridgeNative/ActionLifecycle.cpp:1326-1456 | a block of one NUL is saved and then refused when it is read |
| `CheckpointMeta.WriteCheckpointMeta` | plugins/gsg-hwp/addon/HancomLiveBridgeNative/ActionLifecycle.cpp:820-852 | a new sidecar exactly when its values are ASCII text and the file could be created and written |
| `CheckpointMeta.ParsePositiveLong` | plugins/gsg-hwp/addon/HancomLiveBridgeNative/ActionLifecycle.cpp:893-919 | a positive 32-bit number from digits only, with the bound checked as they accumulate |
| `CheckpointMeta.ReadCheckpointMeta` | plugins/gsg-hwp/addon/HancomLiveBridgeNative/ActionLifecycle.cpp:921-1018 | the facts of the lines within the first 4096 bytes, and whether an Undo is authorised |
| `CheckpointMeta.MetaRoundTrip` | plugins/gsg-hwp/addon/HancomLiveBridgeNative/ActionLifecycle.cpp:820-852 | a sidecar is read back exactly when its format is not empty, no value holds a line feed, and nothing but the last line feed lies behind byte 4096 |
| `CheckpointMeta.WhenUndoIsAuthorised` | plugins/gsg-hwp/addon/HancomLiveBridgeNative/ActionLifecycle.cpp:1012-1017 | an Undo is authorised exactly by one history line, one usable line of each fact, and nothing malformed |
| `RestoreSteps.VerifyRuns` | plugins/gsg-hwp/addon/HancomLiveBridgeNative/ActionLifecycle.cpp:1586-1662 | a verification only looks; what it gives as evidence is supported by the pages and the signature read in it, and it gives none exactly when a read contradicts the expectation |
| `RestoreSteps.BlockRuns` | plugins/gsg-hwp/addon/HancomLiveBridgeNative/ActionLifecycle.cpp:1674-1722 | a block restore inserts only into a body that has been seen empty since the last change, leaves file and session alone, and its success is proved by what was read after the insertion |
| `RestoreChanges.BlockChanges` | plugins/gsg-hwp/addon/HancomLiveBridgeNative/ActionLifecycle.cpp:1683-1685 | a block restore deletes the body exactly when it finds one, and inserts the block exactly when the body has then been seen empty |
| `RestoreChanges.ObligingBlock` | plugins/gsg-hwp/addon/HancomLiveBridgeNative/ActionLifecycle.cpp:2016-2083 | an engine that never refuses is left with the block in place of the body, not beside it |
| `RestoreChanges.ReopenChanges` | plugins/gsg-hwp/addon/HancomLiveBridgeNative/ActionLifecycle.cpp:2415-2532 | a reopen empties the slot if asked to, replaces the file and then opens it, and reports whether emptying failed |
| `RestoreChanges.RollbackClearsAgain` | plugins/gsg-hwp/addon/HancomLiveBridgeNative/ActionLifecycle.cpp:2994-3026 | the rollback from a file empties the slot again exactly when it could be emptied before |
| `RestoreSteps.OpenRuns` | plugins/gsg-hwp/addon/HancomLiveBridgeNative/ActionLifecycle.cpp:2415-2485 | a reopen leaves the source over the user's file with the session on it, or the file uncertain |
| `RestoreSteps.ReopenRuns` | plugins/gsg-hwp/addon/HancomLiveBridgeNative/ActionLifecycle.cpp:2415-2532 | and its success is proved by what was read after the opening |
| `RestoreResults.CaptureFileRuns` | plugins/gsg-hwp/addon/HancomLiveBridgeNative/ActionLifecycle.cpp:1030-1125 | the capture of the recovery copy: saved under the scratch name, moved back by a save over the user's file if the session went along, the copy removed when that fails |
| `RestoreResults.CaptureRuns` | plugins/gsg-hwp/addon/HancomLiveBridgeNative/ActionLifecycle.cpp:2753-2792 | the rollback that the capture yields covers the document that was live when its copy was taken, whatever edits the engine lets in before and after, and there is none to be used exactly when a decisive answer was unfavourable |
| `RestoreResults.AuthorizeRuns` | plugins/gsg-hwp/addon/HancomLiveBridgeNative/ActionLifecycle.cpp:1544-1581 | authorisation is given exactly when no answer was unfavourable and the caller's signature is not malformed, and then the document may be changed |
| `RestoreResults.PrepareRuns` | plugins/gsg-hwp/addon/HancomLiveBridgeNative/ActionLifecycle.cpp:2836-2873 | preparation makes no change of its own, and the document it leaves is the one copied and what has arrived since; it yields a rollback exactly when no answer in it was unfavourable and the caller's signature is not malformed |
| `RestoreResults.UndoRuns` | plugins/gsg-hwp/addon/HancomLiveBridgeNative/ActionLifecycle.cpp:2875-2987 | one Undo, at most one Redo, no replacement; which outcome follows from the answers, and success only with content proof |
| `RestoreResults.ReplaceRuns` | plugins/gsg-hwp/addon/HancomLiveBridgeNative/ActionLifecycle.cpp:2989-3066 | restore first, then at most one rollback; which outcome follows from the answers, and what the user's file holds in each |
| `CheckpointRestore.ReadTarget` | plugins/gsg-hwp/addon/HancomLiveBridgeNative/ActionLifecycle.cpp:2801-2834 | what the checkpoint and its sidecar ask for, and nothing exactly when they cannot be read or their signatures are incomplete |
| `CheckpointRestore.ReplaceDocumentFromCheckpoint` | plugins/gsg-hwp/addon/HancomLiveBridgeNative/ActionLifecycle.cpp:2794-3066 | the whole call, from request and engine to outcome and world, as the step function of which `RestorePromises` proves everything |
| `RestorePromises.OutcomeDecided` | plugins/gsg-hwp/addon/HancomLiveBridgeNative/ActionLifecycle.cpp:2794-3066 | which outcome a restore has: refused exactly for want of a target, of authority or of a favourable answer in preparation; else restored exactly when every answer that matters was favourable and a file has a path to go to; else put back exactly when that succeeds; else the copy is kept |
| `RestorePromises.SuccessIsProved` | plugins/gsg-hwp/addon/HancomLiveBridgeNative/ActionLifecycle.cpp:2794-3066 | what is reported restored, rolled back or put back is proved by what was read after the last change |
| `RestorePromises.ChangesAreOrderly` | plugins/gsg-hwp/addon/HancomLiveBridgeNative/ActionLifecycle.cpp:2836-2873 | in every run no change comes before identity, authority and a copy, history steps never mix with replacements, and a block goes only into a body that has been seen empty |
| `RestorePromises.RefusalUntouched` | plugins/gsg-hwp/addon/HancomLiveBridgeNative/ActionLifecycle.cpp:1079-1105 | a refusal has changed nothing of the document, and leaves file and session untouched exactly when the save of the copy did not move the session |
| `RestorePromises.WhenNothingIsLost` | plugins/gsg-hwp/addon/HancomLiveBridgeNative/ActionLifecycle.cpp:2794-3066 | nothing is lost (what was asked for is there by content, or the document found is live, matched by its own signature, or in a readable copy on disk; session and file stand) exactly: refused, unless the session was moved and not saved back; restored, if a signature was read and the session stands; rolled back, if besides no edit had arrived since the copy and the file is not left overwritten; put back, if the sidecar's origin matches the signature found, no edit had arrived and the session stands; copy kept, if nothing had been changed, or the copy is current and can be read |
| `RestorePromises.CopyIsKept` | plugins/gsg-hwp/addon/HancomLiveBridgeNative/ActionLifecycle.cpp:3040-3066 | a copy is on disk exactly when the outcome says that it is kept, and it is the document that was live when it was taken |
| `RestorePromises.WhenCopyIsCurrent` | plugins/gsg-hwp/addon/HancomLiveBridgeNative/ActionLifecycle.cpp:2836-2873 | the kept copy is the document whose authority was checked exactly when no edit arrived between copy and check, and the one the first change met exactly when none arrived at all |
| `RestorePromises.KeptBlockReadsBack` | plugins/gsg-hwp/addon/HancomLiveBridgeNative/ActionLifecycle.cpp:779-815 | a kept block gives the document's block back exactly when it holds no NUL and its signature fits a line |
| `RestorePromises.RollbackByContent` | plugins/gsg-hwp/addon/HancomLiveBridgeNative/ActionLifecycle.cpp:1586-1662 | a rollback is proved by content exactly when the signature read back is not empty; its copy is deleted either way |
| `RestorePromises.RollbackLeavesFile` | plugins/gsg-hwp/addon/HancomLiveBridgeNative/ActionLifecycle.cpp:2728-2751 | a rollback leaves the user's file overwritten by the attempt exactly when a document file was to be restored, the path was known and the rollback is a block |
| `StubbornEngine.RefusalCanLose` | plugins/gsg-hwp/addon/HancomLiveBridgeNative/ActionLifecycle.cpp:1079-1105 | for every request that has a target, an engine on which the restore is refused with the user's file of unknown content, the session on the removed copy, and no copy left |
| `StubbornEngine.RollbackCanLose` | plugins/gsg-hwp/addon/HancomLiveBridgeNative/ActionLifecycle.cpp:2989-3066 | for every replacing request: the rollback is accepted on its page count, the copy is deleted, and after a document file a block rollback leaves the file overwritten |
| `StubbornEngine.OriginCanLose` | plugins/gsg-hwp/addon/HancomLiveBridgeNative/ActionLifecycle.cpp:2930-2958 | for every Undo request whose origin does not match the signature found: one Redo is accepted as the state this call found, which it is not, and the copy is deleted |
| `StubbornEngine.SessionCanBeLost` | plugins/gsg-hwp/addon/HancomLiveBridgeNative/ActionLifecycle.cpp:1073-1085 | for every block or Undo request: the move of the session goes unseen, the restore succeeds, and the session is left on the copy that the code deletes |
| `StubbornEngine.CopyCanBeStale` | plugins/gsg-hwp/addon/HancomLiveBridgeNative/ActionLifecycle.cpp:2862-2873 | for every request: an edit arrives after the copy was taken and passes the check of authority; the copy kept is not the document found, nor the one that was checked |
| `StubbornEngine.CopyCanBeUnreadable` | plugins/gsg-hwp/addon/HancomLiveBridgeNative/ActionLifecycle.cpp:779-815 | for every request: the copy kept is a block with a NUL, which cannot be read back |
| `ConcreteRestores.LossesAreReal` | plugins/gsg-hwp/addon/HancomLiveBridgeNative/ActionLifecycle.cpp:2794-3066 | each of these losses happens on a block, a sidecar and signature lines as they are written, under the rules of the signature lines |
| `RotPublication.RevokePair` | plugins/gsg-hwp/addon/HancomLiveBridgeNative/Bridge.cpp:652-666 | a pair is out exactly when the table refused nothing; then its owner reference is released, and otherwise what stays registered is accounted for |
| `RotPublication.RegisterPair` | plugins/gsg-hwp/addon/HancomLiveBridgeNative/Bridge.cpp:578-626 | both registrations and the owner reference exactly when the table refused nothing, or as little as can be left behind |
| `BridgeModule.RemovePublication` | plugins/gsg-hwp/addon/HancomLiveBridgeNative/Bridge.cpp:431-479 | success exactly when the table refused nothing, and then the entry is gone; every other entry is as it was |
| `BridgeModule.Republish` | plugins/gsg-hwp/addon/HancomLiveBridgeNative/Bridge.cpp:327-394 | success exactly when the table refused nothing; a new publication replaces the old one only when that is out, so there is never a second |
| `BridgeModule.UserActionModule.Publish` | plugins/gsg-hwp/addon/HancomLiveBridgeNative/Bridge.cpp:279-403 | success exactly when the table is reachable, there is room and the table refused nothing; then process, window and document are published; other windows and documents are untouched; the account of cookies and owners stays exact |
| `BridgeModule.UserActionModule.Revoke` | plugins/gsg-hwp/addon/HancomLiveBridgeNative/Bridge.cpp:176-231 | success exactly when the table is reachable and refused nothing, which is exactly when nothing is held any more; then the table is empty and every owner reference released |
| `BridgeModule.OnePerName` | plugins/gsg-hwp/addon/HancomLiveBridgeNative/Bridge.cpp:279-403 | at most one live registration stands under each name |
| `WriteEpoch.CheckReceipt` | plugins/gsg-hwp/addon/HancomLiveBridgeNative/BatchAutomation.cpp:1331-1350 | the receipt is accepted exactly when it equals the revision read, with the epoch one back in 64 bits |
| `WriteEpoch.WhenAccepted` | plugins/gsg-hwp/addon/HancomLiveBridgeNative/BatchAutomation.cpp:135-161 | the epochs agree exactly when the boundaries since the receipt are one modulo 2^32 and the receipt is not of the last epoch |
| `WriteEpoch.SoleBoundary` | plugins/gsg-hwp/addon/HancomLiveBridgeNative/BatchAutomation.cpp:1331-1350 | within fewer than 2^32 boundaries: exactly when the call's own start is the only one, and then the other open writers are unchanged |
| `WriteEpoch.OpenWriterGoesUnnoticed` | plugins/gsg-hwp/addon/HancomLiveBridgeNative/BatchAutomation.cpp:135-161 | a writer at work since before the receipt is not noticed |

## Left out

- COM and IDispatch calls, VARIANT conversion, retries, structured exceptions and HRESULT texts: only their outcomes appear, as script answers or parameters.
- `ReplaceDocumentWithFile`, `TrimInsertResidue`, `TrimLeadingResidue` and the observation strings of `ActionLifecycle.cpp`: the restore path no longer calls them.
- Request parsing, base64, UTF-8, `BridgeStatus` shared memory, the activation thread, timings, progress files, image sizing, captions, formats and borders.
- `DocumentGraphIdentity`, `DocumentGraphCodec` and `DocumentGraphCaptureRecords`: not part of this model; digests and node ids are values that are compared, the canonicalizer's result is a parameter.
- Allocation failures inside a step are left out, except where the source turns them into a result of its own (no room for a record or a publication, no batch object, no worker thread).
- The live run of an expansion batch: it appends rows, and its dry run skips the cells that do not exist yet; only the dry run is modelled.
- The check of text formats before a patch.
- `towupper`, `towlower` and white space are those of the C locale for ASCII; other characters count as themselves.
- CellAddress.ParseSelectedCellAddresses: returns upper-cased tokens as found, so an address with leading zeros is kept and then not found by a planner; the round trip is stated for formatted addresses.
- ColumnStacks.ColumnCells: the library sort is modelled by insertion; its result is the only thing used.
- TextPositions.InsertText: the engine's own effect of a typed segment or a paragraph break is taken to be a caret move; the text is taken to be read back as typed, up to line breaks.
- TablePreflight.PreflightSimulates: is stated for safe batches, the exact condition being that of `InStepWhenSafe`; an unsafe batch may end alike all the same, when a later command overwrites the cell. The expected text of a patch, which the request parser guarantees, is part of the command; each cell is modelled from a position of its own.
- SegmentStream.SegmentedRecords.ReadSegments: is stated from the moment the reader stops waiting; the waiting itself, with its lock, its notifications and spurious wake-ups, is the state machine of `StreamRuns`.
- StreamRuns.ReadsSeeTheFinalStream: a critical section is one step; the memory model below the mutex is not modelled.
- SealedStream.FingerprintsInPlace: assumes that no two descriptors name overlapping values, which the canonicalizer provides and the seal does not check.
- ReferenceLayout.VerifyTopology: reading the borders at the end is one answer.
- SegmentStream.SegmentedRecords.CollectRecord: the producer is taken to stop at its first refusal, as `EmitTypedRecordPlan` does; a record collected after an offset too many would be found at the wrong place.
- StreamRuns.NextStepReturns: that a reader is scheduled again at all is left to the operating system.
- FilePatches.ApplyPatches: a write changes at most a prefix of its own range; the operating system writing elsewhere is excluded.
- CaptureCoordinator.Coordinator.Capture: the diagnostics record and the progress callbacks other than the start of the comparison are not modelled; the worker's build is one answer, given when it is joined. What a call of an absent callback does is not modelled; the capture ends there.
- AttemptComparison.ComputeAttemptMismatchBits: the bits are a set of their names rather than a 64-bit word.
- CheckpointSignatures.SignatureRoundTrip: formatted extraction is modelled as the C locale defines it for decimal numbers; digit grouping is off.
- EncodedBlocks.SaveEncodedBlockFile: signatures of 256 MiB and more, at which the source's size test wraps around, are outside the model; what a failed deletion leaves is a parameter.
- CheckpointRestore.ReplaceDocumentFromCheckpoint: is stated for any rules of completeness and matching that the engine's world carries; `RestoreWorld.SignatureRules` gives those of the signature lines, and `SignaturesAreSensible` the one property used of them. The contents of the document are one value, and edits of others are counted: during each call of the preparation any number may arrive, after what the call itself saw or saved; after the first change none are modelled. The block is taken to be of the document at the call that answers it. Deleting the copy is taken to succeed.
- BridgeModule.UserActionModule.Publish: a failed revocation is taken to leave the registration live, and a list for which room was reserved to be extendable; reading the window and the document are parameters.
- WriteEpoch.CheckReceipt: the content part of a revision is one value; that equal lines mean equal revisions is taken from their format.
