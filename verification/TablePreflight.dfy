/** The dry run of a table fill batch on a shadow copy of its cells, and what it promises about the real run. */
module TablePreflight {
  import opened Options
  import opened CellAddress
  import opened TextPositions
  import opened TextMatches
  import opened PatchReadback
  import opened LiveCells

  datatype Command =
    | SelectControl(id: string)
    | CaptureTable
    | GoCell(target: string)
    | RunAction(name: string)
    | SetCellText(address: string, hasExpected: bool, expected: string, text: string)
    | PatchCell(table: string, address: string, search: string, replacement: string, matchCase: bool, occurrence: int)
    | OtherCommand

  // ----- which batches are dry-run -----

  datatype BatchKind = NoBatch | Fill | Expand

  predicate IsTextMutation(command: Command, tableId: string) {
    command.SetCellText? || (command.PatchCell? && command.table == tableId)
  }

  /** A fill batch selects and captures one table, and after that only writes into cells of that table. */
  ghost predicate IsFill(commands: seq<Command>) {
    && |commands| >= 3 && commands[0].SelectControl? && commands[1].CaptureTable?
    && forall i :: 2 <= i < |commands| ==> IsTextMutation(commands[i], commands[0].id)
  }

  predicate AppendsRow(command: Command) {
    command.RunAction? && command.name == "TableAppendRow"
  }

  /** In an expansion the table's last cell is visited, rows are appended up to command `n`, and texts follow. */
  ghost predicate IsExpandAt(commands: seq<Command>, n: nat) {
    && 3 < n < |commands| && commands[0].SelectControl? && commands[1].CaptureTable? && commands[2].GoCell?
    && (forall i :: 3 <= i < n ==> AppendsRow(commands[i]))
    && forall i :: n <= i < |commands| ==> IsTextMutation(commands[i], commands[0].id)
  }

  /** An expansion up to command `index`: rows are appended up to `n`, and texts follow. */
  ghost predicate Expanding(commands: seq<Command>, index: nat, n: nat) {
    && 3 <= n <= index <= |commands| && commands[0].SelectControl? && commands[1].CaptureTable? && commands[2].GoCell?
    && (forall i :: 3 <= i < n ==> AppendsRow(commands[i]))
    && (forall i :: n <= i < index ==> IsTextMutation(commands[i], commands[0].id))
    && (n < index ==> 3 < n)
  }

  /** A command that does not continue an expansion ends it, and without any text it is none. */
  lemma {:induction false} NoExpansion(commands: seq<Command>, index: nat, n: nat)
    requires Expanding(commands, index, n)
    requires index < |commands| ==> (n == index ==> !AppendsRow(commands[index])) &&
                                    (n > 3 ==> !IsTextMutation(commands[index], commands[0].id))
    requires index == |commands| ==> n == index
    ensures forall m: nat :: !IsExpandAt(commands, m)
  {
    forall m: nat ensures !IsExpandAt(commands, m) {
      assert 3 <= m < n ==> AppendsRow(commands[m]);
      assert n < index ==> IsTextMutation(commands[n], commands[0].id);
    }
  }

  /** The classifier: one pass with three flags. Only batches without a row expansion become fill batches. */
  method ClassifyTableTextBatch(commands: seq<Command>) returns (kind: BatchKind)
    ensures kind == Fill <==> IsFill(commands)
    ensures kind == Expand <==> exists n: nat :: IsExpandAt(commands, n)
  {
    if |commands| < 3 || !commands[0].SelectControl? || !commands[1].CaptureTable? {
      return NoBatch;
    }
    var tableId := commands[0].id;
    var hasTextMutation, hasExpansionAnchor, hasAppendRow := false, false, false;
    ghost var n: nat := 3;
    for index := 2 to |commands|
      invariant hasExpansionAnchor <==> index > 2 && commands[2].GoCell?
      invariant hasAppendRow ==> hasExpansionAnchor
      invariant if index == 2 then !hasTextMutation else !hasExpansionAnchor ==> hasTextMutation
      invariant !hasExpansionAnchor ==> forall i :: 2 <= i < index ==> IsTextMutation(commands[i], tableId)
      invariant hasExpansionAnchor ==> Expanding(commands, index, n)
      invariant !hasExpansionAnchor ==> n == 3
      invariant hasExpansionAnchor ==> (hasTextMutation <==> n < index)
      invariant hasExpansionAnchor ==> (hasAppendRow <==> n > 3)
    {
      var command := commands[index];
      if !hasTextMutation && !hasExpansionAnchor && index == 2 && command.GoCell? {
        hasExpansionAnchor := true;
        continue;
      }
      if !hasTextMutation && hasExpansionAnchor && AppendsRow(command) {
        hasAppendRow := true;
        n := n + 1;
        continue;
      }
      if hasExpansionAnchor && !hasAppendRow {
        NoExpansion(commands, index, n);
        return NoBatch;
      }
      if command.SetCellText? {
        hasTextMutation := true;
        continue;
      }
      if command.PatchCell? && command.table == tableId {
        hasTextMutation := true;
        continue;
      }
      if hasExpansionAnchor {
        NoExpansion(commands, index, n);
      }
      return NoBatch;
    }
    if !hasTextMutation {
      NoExpansion(commands, |commands|, n);
      return NoBatch;
    }
    kind := if hasAppendRow then Expand else Fill;
    assert hasAppendRow ==> IsExpandAt(commands, n);
  }

  // ----- cells -----

  /** A table cell: the table's id and the upper-cased address. */
  type Key = (string, string)

  type Cells = map<Key, string>

  function KeyOf(tableId: string, command: Command): Key
    requires command.SetCellText? || command.PatchCell?
  {
    if command.PatchCell? then (command.table, Normalize(command.address)) else (tableId, Normalize(command.address))
  }

  /** What a patch command has to satisfy before anything is searched. */
  predicate PatchAllowed(command: Command)
    requires command.PatchCell?
  {
    0 <= command.occurrence <= MAXIMUM_OCCURRENCE && command.search != []
  }

  /** The new text of a cell under the shadow rules. */
  function ShadowText(command: Command, current: string): Option<string>
    requires command.SetCellText? || command.PatchCell?
  {
    match command
    case SetCellText(_, hasExpected, expected, text) =>
      if hasExpected && !SameParagraphText(current, expected) then None else Some(text)
    case PatchCell(_, _, search, replacement, matchCase, occurrence) =>
      if !PatchAllowed(command) then None
      else
        var patched := ShadowPatch(current, search, matchCase, occurrence, replacement);
        if patched.Text? then Some(patched.text) else None
    case _ => None
  }

  /** The cells of the live table, as the engine holds them. */
  type LiveTable = map<Key, seq<Unit>>

  const CellStart := Position(1, 0, 0)

  /** A cell under the live rules: a new text is typed over everything, a patch replaces what its scan selects. */
  function LiveCell(command: Command, current: seq<Unit>): Option<seq<Unit>>
    requires command.SetCellText? || command.PatchCell?
  {
    match command
    case SetCellText(_, hasExpected, expected, text) =>
      if hasExpected && !SameParagraphText(Spell(current), expected) then None else Some(Units(text))
    case PatchCell(_, _, search, replacement, matchCase, occurrence) =>
      if search == [] then None
      else
        var patched := PatchCellUnits(CellStart, current, search, matchCase, occurrence, replacement);
        if patched.Cell? then Some(patched.units) else None
    case _ => None
  }

  // ----- the shadow run -----

  /** One command on the shadow map: the cell is read from the document on first use and from the map after that. */
  function ShadowStep(document: Cells, shadow: Cells, tableId: string, command: Command): Option<Cells>
    requires command.SetCellText? || command.PatchCell?
  {
    var key := KeyOf(tableId, command);
    if key !in shadow && key !in document then None
    else
      var current := if key in shadow then shadow[key] else document[key];
      var next := ShadowText(command, current);
      if next.Some? then Some(shadow[key := next.value]) else None
  }

  function ShadowRun(document: Cells, shadow: Cells, tableId: string, commands: seq<Command>): Option<Cells>
    requires forall i :: 0 <= i < |commands| ==> commands[i].SetCellText? || commands[i].PatchCell?
    decreases |commands|
  {
    if commands == [] then Some(shadow)
    else
      var next := ShadowStep(document, shadow, tableId, commands[0]);
      if next.None? then None else ShadowRun(document, next.value, tableId, commands[1..])
  }

  /** Reads a cell through the shadow map, filling the map on first use. */
  method ReadShadowCell(document: Cells, shadow: Cells, key: Key) returns (current: Option<string>, shadow': Cells)
    ensures current ==
            if key in shadow then Some(shadow[key]) else if key in document then Some(document[key]) else None
    ensures shadow' == if current.Some? then shadow[key := current.value] else shadow
  {
    shadow' := shadow;
    if key in shadow {
      assert shadow == shadow[key := shadow[key]];
      return Some(shadow[key]), shadow;
    }
    if key !in document {
      return None, shadow;
    }
    shadow' := shadow[key := document[key]];
    current := Some(document[key]);
  }

  datatype ShadowError = StaleText | NotChosen(choice: ShadowChoice)

  /** Why a command is refused on a shadow text: each refusal has its own error. */
  ghost predicate Faulty(command: Command, current: string, error: ShadowError) {
    match error
    case StaleText => command.SetCellText? && command.hasExpected && !SameParagraphText(current, command.expected)
    case NotChosen(OccurrenceOutOfRange) => command.PatchCell? && !(0 <= command.occurrence <= MAXIMUM_OCCURRENCE)
    case NotChosen(ExpectedEmpty) =>
      command.PatchCell? && 0 <= command.occurrence <= MAXIMUM_OCCURRENCE && command.search == []
    case NotChosen(Chosen(choice)) =>
      command.PatchCell? && PatchAllowed(command) && !choice.Found? &&
      RightChoice(current, command.search, command.matchCase, command.occurrence, choice)
  }

  /** `text` is what `current` becomes when the match at `k` is the one asked for and is replaced. */
  ghost predicate ReplacesAt(command: Command, current: string, text: string, k: nat)
    requires command.PatchCell?
  {
    && RightChoice(current, command.search, command.matchCase, command.occurrence, Found(k))
    && k + |command.search| <= |current|
    && text == current[..k] + command.replacement + current[k + |command.search|..]
  }

  ghost predicate ReplacesTheMatch(command: Command, current: string, text: string)
    requires command.PatchCell?
  {
    PatchAllowed(command) && exists k: nat :: ReplacesAt(command, current, text, k)
  }

  lemma {:induction false} PatchAccepted(command: Command, current: string, text: string, k: nat)
    requires command.PatchCell? && PatchAllowed(command) && ReplacesAt(command, current, text, k)
    ensures ShadowText(command, current) == Some(text)
  {
    RightIsChosen(current, command.search, command.matchCase, command.occurrence, Found(k));
    ShadowAt(command, current, k);
  }

  lemma {:induction false} PatchWitness(command: Command, current: string) returns (k: nat)
    requires command.PatchCell? && ShadowText(command, current).Some?
    ensures PatchAllowed(command) && ReplacesAt(command, current, ShadowText(command, current).value, k)
  {
    var choice := ChosenIsRight(current, command.search, command.matchCase, command.occurrence);
    k := choice.offset;
    ShadowAt(command, current, k);
  }

  /** A patch is accepted in the shadow copy exactly when its match can be chosen, and then replaces that match. */
  lemma {:induction false} PatchDecided(command: Command, current: string)
    requires command.PatchCell?
    ensures forall text :: ShadowText(command, current) == Some(text) <==> ReplacesTheMatch(command, current, text)
  {
    if ShadowText(command, current).Some? {
      var k := PatchWitness(command, current);
    }
    forall text | ReplacesTheMatch(command, current, text) ensures ShadowText(command, current) == Some(text) {
      var k: nat :| ReplacesAt(command, current, text, k);
      PatchAccepted(command, current, text, k);
    }
  }

  lemma {:induction false} ShadowAt(command: Command, current: string, k: nat)
    requires command.PatchCell? && PatchAllowed(command) && k + |command.search| <= |current|
    requires Choose(Greedy(current, command.search, command.matchCase, 0), command.occurrence) == Found(k)
    ensures ShadowText(command, current) ==
            Some(current[..k] + command.replacement + current[k + |command.search|..])
  {
  }

  /** A patch that asks for the only match is refused, live and in the shadow copy, where two matches stand side by
      side: neither the text nor the cell changes. */
  lemma {:induction false} AmbiguousIsRefused(command: Command, us: seq<Unit>)
    requires command.PatchCell? && command.occurrence == 0 && command.search != []
    requires !AtMostOne(Spell(us), command.search, command.matchCase)
    ensures ShadowText(command, Spell(us)) == None && LiveCell(command, us) == None
    ensures Faulty(command, Spell(us), NotChosen(Chosen(Ambiguous)))
  {
    var text := Spell(us);
    LiveChoice(CellStart, us, text, command.search, command.matchCase, 0, command.replacement, Ambiguous);
    RightIsChosen(text, command.search, command.matchCase, 0, Ambiguous);
  }

  /** The one fault of a patch is the one that its scan reports. */
  lemma {:induction false} OneFault(command: Command, current: string, choice: ShadowChoice)
    requires command.PatchCell?
    requires choice == OccurrenceOutOfRange <==> !(0 <= command.occurrence <= MAXIMUM_OCCURRENCE)
    requires choice == ExpectedEmpty <==> 0 <= command.occurrence <= MAXIMUM_OCCURRENCE && command.search == []
    requires choice.Chosen? ==>
      RightChoice(current, command.search, command.matchCase, command.occurrence, choice.choice)
    ensures forall e :: Faulty(command, current, e) <==>
                        e == NotChosen(choice) && (choice.Chosen? ==> !choice.choice.Found?)
  {
    if PatchAllowed(command) {
      OneRightChoice(current, command.search, command.matchCase, command.occurrence);
    }
  }

  /** A patch on its shadow text. */
  method ApplyPatch(command: Command, current: string) returns (next: Option<string>, error: Option<ShadowError>)
    requires command.PatchCell?
    ensures next == ShadowText(command, current) && (error.Some? <==> next.None?)
    ensures forall e :: error == Some(e) <==> Faulty(command, current, e)
  {
    var choice := ScanShadow(current, command.search, command.matchCase, command.occurrence);
    OneFault(command, current, choice);
    if !choice.Chosen? || !choice.choice.Found? {
      return None, Some(NotChosen(choice));
    }
    RightIsChosen(current, command.search, command.matchCase, command.occurrence, choice.choice);
    var offset := choice.choice.offset;
    ShadowAt(command, current, offset);
    next, error := Some(Replace(current, offset, offset + |command.search|, command.replacement)), None;
  }

  /** One command on its shadow text: the new text, or the one error that fits. */
  method ApplyShadow(command: Command, current: string) returns (next: Option<string>, error: Option<ShadowError>)
    requires command.SetCellText? || command.PatchCell?
    ensures next == ShadowText(command, current) && (error.Some? <==> next.None?)
    ensures forall e :: error == Some(e) <==> Faulty(command, current, e)
    ensures command.PatchCell? ==> forall t :: next == Some(t) <==> ReplacesTheMatch(command, current, t)
  {
    if command.SetCellText? {
      if command.hasExpected && !SameParagraphText(current, command.expected) {
        return None, Some(StaleText);
      }
      return Some(command.text), None;
    }
    PatchDecided(command, current);
    next, error := ApplyPatch(command, current);
  }

  // ----- the dry run -----

  /** Cell moves and appended rows are not tried, nor are the texts of cells that an expansion has yet to make. */
  predicate Tried(kind: BatchKind, command: Command) {
    command.PatchCell? || (command.SetCellText? && (kind == Fill || command.hasExpected))
  }

  function TriedOnes(kind: BatchKind, commands: seq<Command>): (tried: seq<Command>)
    ensures forall i :: 0 <= i < |tried| ==> tried[i].SetCellText? || tried[i].PatchCell?
  {
    if commands == [] then []
    else (if Tried(kind, commands[0]) then [commands[0]] else []) + TriedOnes(kind, commands[1..])
  }

  lemma {:induction false} AllTried(commands: seq<Command>)
    requires forall i :: 0 <= i < |commands| ==> commands[i].SetCellText? || commands[i].PatchCell?
    ensures TriedOnes(Fill, commands) == commands
  {
    if commands != [] {
      AllTried(commands[1..]);
    }
  }

  /** A text for a cell that is not there yet, without an expected old text, is refused in a fill batch; an expansion
      takes it unseen, because the cell may be one that its new rows make. With an expected text both refuse. */
  lemma {:induction false} NewCellsUnseen(document: Cells, shadow: Cells, tableId: string, command: Command)
    requires command.SetCellText? || command.PatchCell?
    requires KeyOf(tableId, command) !in document && KeyOf(tableId, command) !in shadow
    ensures ShadowRun(document, shadow, tableId, TriedOnes(Fill, [command])) == None
    ensures ShadowRun(document, shadow, tableId, TriedOnes(Expand, [command])) ==
            if command.SetCellText? && !command.hasExpected then Some(shadow) else None
  {
    assert TriedOnes(Fill, [command][1..]) == [] && TriedOnes(Expand, [command][1..]) == [];
  }

  /** What an expansion does try: exactly the patches and the texts that expect an old text, in their order. */
  lemma {:induction false} ExpansionTries(commands: seq<Command>, command: Command)
    ensures multiset(TriedOnes(Expand, commands))[command] ==
            if command.PatchCell? || (command.SetCellText? && command.hasExpected) then multiset(commands)[command]
            else 0
  {
    if commands != [] {
      ExpansionTries(commands[1..], command);
      assert commands == [commands[0]] + commands[1..];
    }
  }

  /** What is left of the dry run turns the shadow map `cells` into `whole`. */
  ghost predicate Trying(document: Cells, cells: Cells, tableId: string, kind: BatchKind, commands: seq<Command>,
                         whole: Option<Cells>)
  {
    ShadowRun(document, cells, tableId, TriedOnes(kind, commands)) == whole
  }

  lemma {:induction false} TryNext(document: Cells, cells: Cells, tableId: string, kind: BatchKind,
                                   commands: seq<Command>, whole: Option<Cells>)
    requires commands != [] && Trying(document, cells, tableId, kind, commands, whole)
    ensures !Tried(kind, commands[0]) ==> Trying(document, cells, tableId, kind, commands[1..], whole)
    ensures Tried(kind, commands[0]) ==>
              var next := ShadowStep(document, cells, tableId, commands[0]);
              if next.None? then whole == None else Trying(document, next.value, tableId, kind, commands[1..], whole)
  {
    var rest := TriedOnes(kind, commands[1..]);
    if Tried(kind, commands[0]) {
      assert ([commands[0]] + rest)[1..] == rest;
    } else {
      assert [] + rest == rest;
    }
  }

  /** Tries one command on the shadow map. */
  method TryCommand(document: Cells, cells: Cells, tableId: string, command: Command) returns (next: Option<Cells>)
    requires command.SetCellText? || command.PatchCell?
    ensures next == ShadowStep(document, cells, tableId, command)
  {
    var key := KeyOf(tableId, command);
    var current, read := ReadShadowCell(document, cells, key);
    if current.None? {
      return None;
    }
    var text, error := ApplyShadow(command, current.value);
    if error.Some? {
      return None;
    }
    assert read[key := text.value] == cells[key := text.value];
    next := Some(read[key := text.value]);
  }

  /** The dry run of a classified batch, from its third command on. */
  method PreflightBatch(document: Cells, commands: seq<Command>, kind: BatchKind) returns (shadow: Option<Cells>)
    requires |commands| >= 3 && commands[0].SelectControl?
    ensures shadow == ShadowRun(document, map[], commands[0].id, TriedOnes(kind, commands[2..]))
    ensures IsFill(commands) && kind == Fill ==> shadow == ShadowRun(document, map[], commands[0].id, commands[2..])
  {
    var tableId := commands[0].id;
    if IsTextOnly(commands[2..]) { AllTried(commands[2..]); }
    var cells: Cells := map[];
    ghost var whole := ShadowRun(document, map[], tableId, TriedOnes(kind, commands[2..]));
    for index := 2 to |commands|
      invariant Trying(document, cells, tableId, kind, commands[index..], whole)
    {
      var command := commands[index];
      assert commands[index..][0] == command && commands[index..][1..] == commands[index + 1..];
      TryNext(document, cells, tableId, kind, commands[index..], whole);
      if Tried(kind, command) {
        var next := TryCommand(document, cells, tableId, command);
        if next.None? {
          return None;
        }
        cells := next.value;
      }
    }
    assert commands[|commands|..] == [];
    shadow := Some(cells);
  }

  predicate IsTextOnly(commands: seq<Command>) {
    forall i :: 0 <= i < |commands| ==> commands[i].SetCellText? || commands[i].PatchCell?
  }

  // ----- the limit of patches per cell -----

  const MaximumCellPatches := 100

  function PatchCount(commands: seq<Command>, key: Key): (n: nat)
    ensures n <= |commands|
  {
    if commands == [] then 0
    else
      var last := commands[|commands| - 1];
      PatchCount(commands[..|commands| - 1], key) +
      if last.PatchCell? && (last.table, Normalize(last.address)) == key then 1 else 0
  }

  ghost predicate WithinLimit(commands: seq<Command>) {
    forall key :: PatchCount(commands, key) <= MaximumCellPatches
  }

  lemma {:induction false} PatchCountGrows(commands: seq<Command>, k: nat, key: Key)
    requires k <= |commands|
    ensures PatchCount(commands[..k], key) <= PatchCount(commands, key)
  {
    if k < |commands| {
      PatchCountGrows(commands[..|commands| - 1], k, key);
      assert commands[..|commands| - 1][..k] == commands[..k];
    } else {
      assert commands[..k] == commands;
    }
  }

  /** The counters of the commands passed so far, none of which is over the limit. */
  ghost predicate Counted(commands: seq<Command>, counts: map<Key, nat>) {
    forall key :: PatchCount(commands, key) == (if key in counts then counts[key] else 0) <= MaximumCellPatches
  }

  method CountPatch(counts: map<Key, nat>, command: Command, ghost before: seq<Command>)
    returns (ok: bool, more: map<Key, nat>)
    requires Counted(before, counts)
    ensures ok ==> Counted(before + [command], more)
    ensures !ok ==> !WithinLimit(before + [command])
  {
    ghost var after := before + [command];
    assert after[..|after| - 1] == before;
    if !command.PatchCell? {
      return true, counts;
    }
    var key := (command.table, Normalize(command.address));
    var count := (if key in counts then counts[key] else 0) + 1;
    more := counts[key := count];
    ok := count <= MaximumCellPatches;
    assert PatchCount(after, key) == count;
  }

  /** The count per cell of a batch that is long enough to have too many. */
  method ValidateCellTextPatchLimit(commands: seq<Command>) returns (ok: bool)
    ensures ok <==> WithinLimit(commands)
  {
    if |commands| <= MaximumCellPatches {
      return true;
    }
    var counts: map<Key, nat> := map[];
    for index := 0 to |commands|
      invariant Counted(commands[..index], counts)
    {
      var counted;
      counted, counts := CountPatch(counts, commands[index], commands[..index]);
      assert commands[..index] + [commands[index]] == commands[..index + 1];
      if !counted {
        OverLimit(commands, index + 1);
        return false;
      }
    }
    assert commands[..|commands|] == commands;
    ok := true;
  }

  lemma {:induction false} OverLimit(commands: seq<Command>, k: nat)
    requires k <= |commands| && !WithinLimit(commands[..k])
    ensures !WithinLimit(commands)
  {
    var key :| PatchCount(commands[..k], key) > MaximumCellPatches;
    PatchCountGrows(commands, k, key);
  }

  // ----- the whole preflight -----

  /** Whether the cursor and the selection could be read, can be restored at all, and were restored afterwards. */
  datatype Cursor = Cursor(read: bool, restorable: bool, restored: bool) {
    predicate Kept() { read && restorable && restored }
  }

  datatype Preflight =
    | TooManyPatches
    | NothingToTry
    | CursorUnread
    | UnsupportedSelection
    | StateLost
    | Rejected
    | Accepted(shadow: Cells)

  function Judged(shadow: Option<Cells>): Preflight {
    if shadow.Some? then Accepted(shadow.value) else Rejected
  }

  /**
   * The preflight of a request. A fill batch is accepted exactly when no cell has too many patches, the cursor could be
   * kept and its dry run succeeds; a lost cursor is reported before anything that the dry run found.
   */
  method PreflightTableTextCommands(document: Cells, commands: seq<Command>, cursor: Cursor) returns (p: Preflight)
    ensures p == TooManyPatches <==> !WithinLimit(commands)
    ensures p == NothingToTry <==>
            WithinLimit(commands) && !IsFill(commands) && forall n: nat :: !IsExpandAt(commands, n)
    ensures p == StateLost ==> !cursor.restored
    ensures p.Accepted? || p == Rejected ==> cursor.Kept()
    ensures IsFill(commands) && WithinLimit(commands) && cursor.Kept() ==>
              p == Judged(ShadowRun(document, map[], commands[0].id, commands[2..]))
    ensures (exists n: nat :: IsExpandAt(commands, n)) && WithinLimit(commands) && cursor.Kept() ==>
              p == Judged(ShadowRun(document, map[], commands[0].id, TriedOnes(Expand, commands[2..])))
  {
    var within := ValidateCellTextPatchLimit(commands);
    if !within {
      return TooManyPatches;
    }
    var kind := ClassifyTableTextBatch(commands);
    if kind == NoBatch {
      return NothingToTry;
    }
    if !cursor.read {
      return CursorUnread;
    }
    if !cursor.restorable {
      return UnsupportedSelection;
    }
    var shadow := PreflightBatch(document, commands, kind);
    if !cursor.restored {
      return StateLost;
    }
    p := Judged(shadow);
  }

  // ----- the real run -----

  function LiveStep(table: LiveTable, tableId: string, command: Command): Option<LiveTable>
    requires command.SetCellText? || command.PatchCell?
  {
    var key := KeyOf(tableId, command);
    if key !in table then None
    else
      var next := LiveCell(command, table[key]);
      if next.Some? then Some(table[key := next.value]) else None
  }

  function LiveRun(table: LiveTable, tableId: string, commands: seq<Command>): Option<LiveTable>
    requires forall i :: 0 <= i < |commands| ==> commands[i].SetCellText? || commands[i].PatchCell?
    decreases |commands|
  {
    if commands == [] then Some(table)
    else
      var next := LiveStep(table, tableId, commands[0]);
      if next.None? then None else LiveRun(next.value, tableId, commands[1..])
  }

  /** The live table whose cells read as the given texts, each break of a text being one break. */
  function Live(document: Cells): LiveTable {
    map k | k in document :: Units(document[k])
  }

  // ----- which commands are safe -----

  /** On this text, a legal patch cuts no CR LF pair and its replacement forms none. */
  predicate SafeOn(command: Command, current: string) {
    command.PatchCell? && PatchAllowed(command) ==>
      ChosenClean(current, command.search, command.matchCase, command.occurrence, command.replacement)
  }

  /** Every command of the dry run is safe on the text it finds; the dry run itself can check this. */
  predicate SafeRun(document: Cells, shadow: Cells, tableId: string, commands: seq<Command>)
    requires forall i :: 0 <= i < |commands| ==> commands[i].SetCellText? || commands[i].PatchCell?
    decreases |commands|
  {
    commands == [] ||
    var key := KeyOf(tableId, commands[0]);
    (key in shadow || key in document ==> SafeOn(commands[0], if key in shadow then shadow[key] else document[key])) &&
    var next := ShadowStep(document, shadow, tableId, commands[0]);
    next.Some? ==> SafeRun(document, next.value, tableId, commands[1..])
  }

  /** A condition on the commands alone: safe searches with safe replacements. */
  predicate SafeCommands(commands: seq<Command>) {
    forall i :: 0 <= i < |commands| && commands[i].PatchCell? && commands[i].search != [] ==>
      SafeSearch(commands[i].search) && SafeReplacement(commands[i].replacement)
  }

  /** Safe commands are safe on whatever texts they find. */
  lemma {:induction false} SafeCommandsRun(document: Cells, shadow: Cells, tableId: string, commands: seq<Command>)
    requires forall i :: 0 <= i < |commands| ==> commands[i].SetCellText? || commands[i].PatchCell?
    requires SafeCommands(commands)
    ensures SafeRun(document, shadow, tableId, commands)
    decreases |commands|
  {
    if commands != [] {
      var c, key := commands[0], KeyOf(tableId, commands[0]);
      if c.PatchCell? && PatchAllowed(c) && (key in shadow || key in document) {
        SafeIsClean(if key in shadow then shadow[key] else document[key], c.search, c.matchCase, c.occurrence,
                    c.replacement);
      }
      var next := ShadowStep(document, shadow, tableId, c);
      if next.Some? {
        SafeCommandsRun(document, next.value, tableId, commands[1..]);
      }
    }
  }

  // ----- the simulation -----

  /** The shadow map covers cells of the document, and the live table is what the shadow map overlays. */
  ghost predicate Simulates(document: Cells, shadow: Cells, table: LiveTable) {
    shadow.Keys <= document.Keys && table == Live(document + shadow)
  }

  /** The cell that a shadow text predicts. */
  function PredictedCell(next: Option<string>): Option<seq<Unit>> {
    if next.Some? then Some(Units(next.value)) else None
  }

  /** On the units of a text, a legal command does live what the shadow text says exactly when it is safe. */
  lemma {:induction false} TextAgrees(command: Command, current: string)
    requires command.SetCellText? || command.PatchCell?
    requires command.PatchCell? ==> PatchAllowed(command)
    ensures LiveCell(command, Units(current)) == PredictedCell(ShadowText(command, current)) <==>
            SafeOn(command, current)
  {
    UnitsOfText(CellStart, current);
    if command.PatchCell? {
      CellAgrees(CellStart, current, command.search, command.matchCase, command.occurrence, command.replacement);
    }
  }

  lemma {:induction false} LiveUpdate(document: Cells, shadow: Cells, key: Key, text: string)
    requires shadow.Keys <= document.Keys && key in document
    ensures Live(document + shadow)[key := Units(text)] == Live(document + shadow[key := text])
  {
    assert document + shadow[key := text] == (document + shadow)[key := text];
  }

  lemma {:induction false} StepSimulates(document: Cells, shadow: Cells, table: LiveTable, tableId: string,
                                         command: Command)
    requires command.SetCellText? || command.PatchCell?
    requires Simulates(document, shadow, table)
    requires ShadowStep(document, shadow, tableId, command).Some?
    requires SafeOn(command, (document + shadow)[KeyOf(tableId, command)])
    ensures LiveStep(table, tableId, command).Some?
    ensures Simulates(document, ShadowStep(document, shadow, tableId, command).value,
                      LiveStep(table, tableId, command).value)
  {
    var key := KeyOf(tableId, command);
    var current := (document + shadow)[key];
    TextAgrees(command, current);
    LiveUpdate(document, shadow, key, ShadowText(command, current).value);
  }

  /**
   * The simulation: if the dry run of a safe batch is accepted on the texts the real run starts from, no real command
   * meets a stale, missing or ambiguous text, and the table ends as the shadow texts over the untouched document.
   */
  lemma {:induction false} PreflightSimulates(
    document: Cells, shadow: Cells, table: LiveTable, tableId: string, commands: seq<Command>)
    requires forall i :: 0 <= i < |commands| ==> commands[i].SetCellText? || commands[i].PatchCell?
    requires Simulates(document, shadow, table) && SafeRun(document, shadow, tableId, commands)
    requires ShadowRun(document, shadow, tableId, commands).Some?
    ensures LiveRun(table, tableId, commands).Some?
    ensures Simulates(document, ShadowRun(document, shadow, tableId, commands).value,
                      LiveRun(table, tableId, commands).value)
    decreases |commands|
  {
    if commands != [] {
      StepSimulates(document, shadow, table, tableId, commands[0]);
      PreflightSimulates(document, ShadowStep(document, shadow, tableId, commands[0]).value,
                         LiveStep(table, tableId, commands[0]).value, tableId, commands[1..]);
    }
  }

  /** The command does live what it did in the dry run. */
  ghost predicate InStep(document: Cells, shadow: Cells, table: LiveTable, tableId: string, command: Command)
    requires command.SetCellText? || command.PatchCell?
  {
    var next, live := ShadowStep(document, shadow, tableId, command), LiveStep(table, tableId, command);
    next.Some? && live.Some? && Simulates(document, next.value, live.value)
  }

  lemma {:induction false} StepAgrees(document: Cells, shadow: Cells, table: LiveTable, tableId: string,
                                      command: Command)
    requires command.SetCellText? || command.PatchCell?
    requires Simulates(document, shadow, table) && ShadowStep(document, shadow, tableId, command).Some?
    ensures InStep(document, shadow, table, tableId, command) <==>
            SafeOn(command, (document + shadow)[KeyOf(tableId, command)])
  {
    var key := KeyOf(tableId, command);
    var current := (document + shadow)[key];
    var text := ShadowText(command, current).value;
    if SafeOn(command, current) {
      StepSimulates(document, shadow, table, tableId, command);
    } else if LiveStep(table, tableId, command).Some? {
      TextAgrees(command, current);
      LiveUpdate(document, shadow, key, text);
      assert LiveStep(table, tableId, command).value[key] != Units(text);
      assert Live(document + shadow[key := text])[key] == Units(text);
    }
  }

  /** Every command of the batch does live what it did in the dry run. */
  ghost predicate StaysInStep(document: Cells, shadow: Cells, table: LiveTable, tableId: string,
                              commands: seq<Command>)
    requires forall i :: 0 <= i < |commands| ==> commands[i].SetCellText? || commands[i].PatchCell?
    decreases |commands|
  {
    commands == [] ||
    (InStep(document, shadow, table, tableId, commands[0]) &&
     StaysInStep(document, ShadowStep(document, shadow, tableId, commands[0]).value,
                 LiveStep(table, tableId, commands[0]).value, tableId, commands[1..]))
  }

  /** An accepted batch stays in step with its dry run exactly when it is safe. */
  lemma {:induction false} InStepWhenSafe(
    document: Cells, shadow: Cells, table: LiveTable, tableId: string, commands: seq<Command>)
    requires forall i :: 0 <= i < |commands| ==> commands[i].SetCellText? || commands[i].PatchCell?
    requires Simulates(document, shadow, table) && ShadowRun(document, shadow, tableId, commands).Some?
    ensures StaysInStep(document, shadow, table, tableId, commands) <==>
            SafeRun(document, shadow, tableId, commands)
    decreases |commands|
  {
    if commands != [] {
      StepAgrees(document, shadow, table, tableId, commands[0]);
      if InStep(document, shadow, table, tableId, commands[0]) {
        InStepWhenSafe(document, ShadowStep(document, shadow, tableId, commands[0]).value,
                       LiveStep(table, tableId, commands[0]).value, tableId, commands[1..]);
      }
    }
  }

  /** A command that the dry run refuses does not run either. */
  lemma {:induction false} StepRefuses(document: Cells, shadow: Cells, table: LiveTable, tableId: string,
                                       command: Command)
    requires command.SetCellText? || (command.PatchCell? && PatchAllowed(command))
    requires Simulates(document, shadow, table) && ShadowStep(document, shadow, tableId, command).None?
    requires var key := KeyOf(tableId, command); key in document ==> SafeOn(command, (document + shadow)[key])
    ensures LiveStep(table, tableId, command).None?
  {
    var key := KeyOf(tableId, command);
    if key in document {
      TextAgrees(command, (document + shadow)[key]);
    }
  }

  /** And the dry run refuses nothing that would have worked: for patches with legal arguments,
      the real run gets through exactly the safe batches the dry run accepts. */
  lemma {:induction false} PreflightDecides(
    document: Cells, shadow: Cells, table: LiveTable, tableId: string, commands: seq<Command>)
    requires forall i :: 0 <= i < |commands| ==> commands[i].SetCellText? || commands[i].PatchCell?
    requires forall i :: 0 <= i < |commands| && commands[i].PatchCell? ==> PatchAllowed(commands[i])
    requires Simulates(document, shadow, table) && SafeRun(document, shadow, tableId, commands)
    ensures ShadowRun(document, shadow, tableId, commands).Some? <==> LiveRun(table, tableId, commands).Some?
    decreases |commands|
  {
    if commands != [] {
      var next := ShadowStep(document, shadow, tableId, commands[0]);
      if next.Some? {
        StepSimulates(document, shadow, table, tableId, commands[0]);
        PreflightDecides(document, next.value, LiveStep(table, tableId, commands[0]).value, tableId, commands[1..]);
      } else {
        StepRefuses(document, shadow, table, tableId, commands[0]);
      }
    }
  }

  /** The cells a run writes. */
  function Written(tableId: string, commands: seq<Command>): set<Key>
    requires forall i :: 0 <= i < |commands| ==> commands[i].SetCellText? || commands[i].PatchCell?
  {
    set i | 0 <= i < |commands| :: KeyOf(tableId, commands[i])
  }

  lemma {:induction false} ShadowTouches(document: Cells, shadow: Cells, tableId: string, commands: seq<Command>)
    requires forall i :: 0 <= i < |commands| ==> commands[i].SetCellText? || commands[i].PatchCell?
    requires ShadowRun(document, shadow, tableId, commands).Some?
    ensures ShadowRun(document, shadow, tableId, commands).value.Keys == shadow.Keys + Written(tableId, commands)
    decreases |commands|
  {
    if commands != [] {
      ShadowTouches(document, ShadowStep(document, shadow, tableId, commands[0]).value, tableId, commands[1..]);
      assert Written(tableId, commands) == {KeyOf(tableId, commands[0])} + Written(tableId, commands[1..]) by {
        forall k | k in Written(tableId, commands)
          ensures k in {KeyOf(tableId, commands[0])} + Written(tableId, commands[1..])
        {
          var i :| 0 <= i < |commands| && k == KeyOf(tableId, commands[i]);
          if i > 0 { assert commands[1..][i - 1] == commands[i]; }
        }
        forall k | k in Written(tableId, commands[1..]) ensures k in Written(tableId, commands) {
          var i :| 0 <= i < |commands[1..]| && k == KeyOf(tableId, commands[1..][i]);
          assert commands[1..][i] == commands[i + 1];
        }
      }
    }
  }

  /** The theorem for a whole fill batch. */
  lemma {:induction false} AcceptedFillRuns(document: Cells, commands: seq<Command>)
    requires IsFill(commands) && SafeRun(document, map[], commands[0].id, commands[2..])
    requires ShadowRun(document, map[], commands[0].id, commands[2..]).Some?
    ensures
      var shadow := ShadowRun(document, map[], commands[0].id, commands[2..]).value;
      var live := LiveRun(Live(document), commands[0].id, commands[2..]);
      && live.Some? && live.value.Keys == document.Keys
      && shadow.Keys == Written(commands[0].id, commands[2..])
      && (forall k :: k in shadow ==> k in live.value && live.value[k] == Units(shadow[k]))
      && (forall k :: k in document && k !in shadow ==> k in live.value && live.value[k] == Units(document[k]))
  {
    assert document == document + map[];
    PreflightSimulates(document, map[], Live(document), commands[0].id, commands[2..]);
    ShadowTouches(document, map[], commands[0].id, commands[2..]);
  }

  // ----- fill batches that pass their dry run and go wrong -----

  /** One step of a run, by what it does to one cell. */
  lemma {:induction false} LiveOne(key: Key, us: seq<Unit>, command: Command, rest: seq<Command>)
    requires forall i :: 0 <= i < |rest| ==> rest[i].SetCellText? || rest[i].PatchCell?
    requires (command.SetCellText? || command.PatchCell?) && KeyOf("t", command) == key
    ensures LiveRun(map[key := us], "t", [command] + rest) ==
            var next := LiveCell(command, us);
            if next.None? then None else LiveRun(map[key := next.value], "t", rest)
  {
    assert ([command] + rest)[1..] == rest;
    var table: LiveTable := map[key := us];
    var next := LiveCell(command, us);
    if next.Some? {
      assert table[key := next.value] == map[key := next.value];
    }
  }

  lemma {:induction false} ShadowOne(document: Cells, shadow: Cells, command: Command, rest: seq<Command>)
    requires forall i :: 0 <= i < |rest| ==> rest[i].SetCellText? || rest[i].PatchCell?
    requires command.SetCellText? || command.PatchCell?
    ensures ShadowRun(document, shadow, "t", [command] + rest) ==
            var next := ShadowStep(document, shadow, "t", command);
            if next.None? then None else ShadowRun(document, next.value, "t", rest)
  {
    assert ([command] + rest)[1..] == rest;
  }

  /** The one match of a search in a text. */
  lemma {:induction false} OnlyMatch(text: string, search: string, at: nat, from: nat)
    requires search != [] && from <= at && at + |search| <= |text| && text[at..at + |search|] == search
    requires forall k :: from <= k < |text| && k != at ==> text[k] != search[0]
    ensures Greedy(text, search, true, from) == [at]
    decreases |text| - from
  {
    assert from != at && from + |search| <= |text| ==> text[from..from + |search|][0] == text[from];
    if from < at {
      assert !MatchAt(text, search, from, true);
      OnlyMatch(text, search, at, from + 1);
    } else {
      assert MatchAt(text, search, at, true);
      NoMatch(text, search, at + |search|);
    }
  }

  lemma {:induction false} NoMatch(text: string, search: string, from: nat)
    requires search != [] && forall k :: from <= k < |text| ==> text[k] != search[0]
    ensures Greedy(text, search, true, from) == []
    decreases |text| - from
  {
    if from + |search| <= |text| {
      assert text[from..from + |search|][0] == text[from];
      NoMatch(text, search, from + 1);
    }
  }

  lemma {:induction false} NormalA1()
    ensures Normalize("A1") == "A1"
  {
  }

  lemma {:induction false} ShadowMatch(text: string, search: string, at: nat, replacement: string)
    requires search != [] && at + |search| <= |text| && text[at..at + |search|] == search
    requires forall k :: 0 <= k < |text| && k != at ==> text[k] != search[0]
    ensures ShadowPatch(text, search, true, 0, replacement) == Text(Replace(text, at, at + |search|, replacement))
  {
    OnlyMatch(text, search, at, 0);
  }

  /** A search that ends in CR: the batch passes its dry run and then leaves a different cell. */
  lemma {:induction false} UnsafeFillDiverges()
    ensures
      var batch := [SelectControl("t"), CaptureTable, PatchCell("t", "A1", "x\r", "y", true, 0)];
      var document: Cells := map[("t", "A1") := "x\r\nz"];
      && IsFill(batch)
      && ShadowRun(document, map[], "t", batch[2..]) == Some(map[("t", "A1") := "y\nz"])
      && LiveRun(Live(document), "t", batch[2..]) != Some(Live(map[("t", "A1") := "y\nz"]))
  {
    var patch := PatchCell("t", "A1", "x\r", "y", true, 0);
    var batch := [SelectControl("t"), CaptureTable, patch];
    var text := "x\r\nz";
    var key, document: Cells := ("t", "A1"), map[("t", "A1") := text];
    NormalA1();
    assert batch[2..] == [patch] && [patch] == [patch] + [];
    ShadowMatch(text, "x\r", 0, "y");
    assert Replace(text, 0, 2, "y") == "y\nz";
    ShadowOne(document, map[], patch, []);
    LiveOne(key, Units(text), patch, []);
    assert Live(document) == map[key := Units(text)];
    OnlyMatch(text, "x\r", 0, 0);
    assert InsidePair(text, 2);
    TextAgrees(patch, text);
    assert Live(map[key := "y\nz"])[key] == Units("y\nz");
  }

  /**
   * A replacement that ends in CR in front of a kept LF: both searches of this batch are safe and the dry run accepts
   * it, and the live cell, which has one break more than the shadow text, refuses the second patch.
   */
  lemma {:induction false} SeamFillDiverges()
    ensures
      var batch := [SelectControl("t"), CaptureTable, PatchCell("t", "A1", "x", "x\r", true, 0),
                    PatchCell("t", "A1", "z", "w", true, 0)];
      var document: Cells := map[("t", "A1") := "x\nz"];
      && IsFill(batch) && SafeSearch("x") && SafeSearch("z")
      && ShadowRun(document, map[], "t", batch[2..]) == Some(map[("t", "A1") := "x\r\nw"])
      && LiveRun(Live(document), "t", batch[2..]).None?
  {
    var first, second := PatchCell("t", "A1", "x", "x\r", true, 0), PatchCell("t", "A1", "z", "w", true, 0);
    FillOfTwo(first, second);
    SeamShadow(first, second);
    SeamLive(first, second);
  }

  lemma {:induction false} FillOfTwo(first: Command, second: Command)
    requires IsTextMutation(first, "t") && IsTextMutation(second, "t")
    ensures var batch := [SelectControl("t"), CaptureTable, first, second];
      IsFill(batch) && batch[2..] == [first] + [second]
  {
  }

  lemma {:induction false} SeamShadow(first: Command, second: Command)
    requires first == PatchCell("t", "A1", "x", "x\r", true, 0) && second == PatchCell("t", "A1", "z", "w", true, 0)
    ensures ShadowRun(map[("t", "A1") := "x\nz"], map[], "t", [first] + [second]) == Some(map[("t", "A1") := "x\r\nw"])
  {
    var document: Cells, after: Cells := map[("t", "A1") := "x\nz"], map[("t", "A1") := "x\r\nz"];
    FirstShadow(document, first);
    ShadowOne(document, map[], first, [second]);
    SecondShadow(document, after, second);
    assert [second] == [second] + [];
    ShadowOne(document, after, second, []);
  }

  lemma {:induction false} FirstShadow(document: Cells, first: Command)
    requires first == PatchCell("t", "A1", "x", "x\r", true, 0) && document == map[("t", "A1") := "x\nz"]
    ensures ShadowStep(document, map[], "t", first) == Some(map[("t", "A1") := "x\r\nz"])
  {
    NormalA1();
    ShadowMatch("x\nz", "x", 0, "x\r");
    assert Replace("x\nz", 0, 1, "x\r") == "x\r\nz";
  }

  lemma {:induction false} SecondShadow(document: Cells, after: Cells, second: Command)
    requires second == PatchCell("t", "A1", "z", "w", true, 0) && after == map[("t", "A1") := "x\r\nz"]
    ensures ShadowStep(document, after, "t", second) == Some(map[("t", "A1") := "x\r\nw"])
  {
    NormalA1();
    ShadowMatch("x\r\nz", "z", 3, "w");
    assert Replace("x\r\nz", 3, 4, "w") == "x\r\nw";
    assert after[("t", "A1") := "x\r\nw"] == map[("t", "A1") := "x\r\nw"];
  }

  lemma {:induction false} SeamLive(first: Command, second: Command)
    requires first == PatchCell("t", "A1", "x", "x\r", true, 0) && second == PatchCell("t", "A1", "z", "w", true, 0)
    ensures LiveRun(Live(map[("t", "A1") := "x\nz"]), "t", [first] + [second]).None?
  {
    var key := ("t", "A1");
    NormalA1();
    var before := [Letter('x'), Break("\n"), Letter('z')];
    var between := [Letter('x'), Break("\r"), Break("\n"), Letter('z')];
    SmallUnits();
    assert Live(map[key := "x\nz"]) == map[key := before];
    LiveOne(key, before, first, [second]);
    FirstSeam(before, between);
    assert [second] == [second] + [];
    LiveOne(key, between, second, []);
    SecondSeam(between);
  }

  lemma {:induction false} SmallUnits()
    ensures Units("x\nz") == [Letter('x'), Break("\n"), Letter('z')]
    ensures Units("x\r") == [Letter('x'), Break("\r")]
  {
    assert "x\nz"[1..] == "\nz" && "\nz"[1..] == "z" && "z"[1..] == [];
    assert "x\r"[1..] == "\r" && "\r"[1..] == [];
    assert Units("z") == [Letter('z')];
    assert Units("\nz") == [Break("\n")] + Units("z");
    assert Units("\r") == [Break("\r")];
  }

  /** The first patch leaves two breaks. */
  lemma {:induction false} FirstSeam(before: seq<Unit>, between: seq<Unit>)
    requires before == [Letter('x'), Break("\n"), Letter('z')]
    requires between == [Letter('x'), Break("\r"), Break("\n"), Letter('z')]
    ensures PatchCellUnits(CellStart, before, "x", true, 0, "x\r") == Cell(between)
  {
    SmallUnits();
    UnitsOfText(CellStart, "x\nz");
    OnlyMatch("x\nz", "x", 0, 0);
    FoundAgrees(CellStart, "x\nz", "x", true, 0, "x\r");
    ReplaceInCell(CellStart, "x\nz", "x", true, 0, "x\r");
    WholeRead("x\nz", "x", true, 0);
    SeamTail();
  }

  lemma {:induction false} SeamTail()
    ensures "x\nz"[..0] == [] && "x\nz"[1..] == "\nz" && Units([]) == []
    ensures Units("\nz") == [Break("\n"), Letter('z')]
  {
    assert "\nz"[1..] == "z" && "z"[1..] == [];
    assert Units("z") == [Letter('z')];
  }

  /** The second scan takes the two breaks for one and looks for the match where there is none. */
  lemma {:induction false} SecondSeam(between: seq<Unit>)
    requires between == [Letter('x'), Break("\r"), Break("\n"), Letter('z')]
    ensures PatchCellUnits(CellStart, between, "z", true, 0, "w") == Refused
  {
    SpellSeam(between);
    OnlyMatch("x\r\nz", "z", 3, 0);
    SeamPositions();
    NoSuchUnit(between);
  }

  lemma {:induction false} SpellSeam(between: seq<Unit>)
    requires between == [Letter('x'), Break("\r"), Break("\n"), Letter('z')]
    ensures Spell(between) == "x\r\nz"
  {
    assert between[1..] == [Break("\r"), Break("\n"), Letter('z')];
    assert between[1..][1..] == [Break("\n"), Letter('z')];
    assert between[1..][1..][1..] == [Letter('z')] && [Letter('z')][1..] == [];
    assert Spell([Letter('z')]) == "z" + [];
    assert Spell(between[1..][1..]) == "\n" + "z";
    assert Spell(between[1..]) == "\r" + "\nz";
  }

  lemma {:induction false} SeamPositions()
    ensures PositionAt(CellStart, "x\r\nz", 3) == Position(1, 1, 0)
    ensures PositionAt(CellStart, "x\r\nz", 4) == Position(1, 1, 1)
  {
    assert "x\r\nz"[..3] == "x\r\n" && "x\r\nz"[..4] == "x\r\nz";
    assert "x\r\n"[1..] == "\r\n" && "\r\n"[2..] == [];
    assert "x\r\nz"[1..] == "\r\nz" && "\r\nz"[2..] == "z" && "z"[1..] == [];
  }

  lemma {:induction false} NoSuchUnit(between: seq<Unit>)
    requires between == [Letter('x'), Break("\r"), Break("\n"), Letter('z')]
    ensures IndexAt(CellStart, between, Position(1, 1, 1)).None?
  {
    assert between[1..] == [Break("\r"), Break("\n"), Letter('z')];
    assert between[1..][1..] == [Break("\n"), Letter('z')];
    assert between[1..][1..][1..] == [Letter('z')] && [Letter('z')][1..] == [];
    var p := Position(1, 1, 1);
    assert IndexAt(Position(1, 2, 1), [], p).None?;
    assert IndexAt(Position(1, 2, 0), [Letter('z')], p).None?;
    assert IndexAt(Position(1, 1, 0), [Break("\n"), Letter('z')], p).None?;
    assert IndexAt(Position(1, 0, 1), [Break("\r"), Break("\n"), Letter('z')], p).None?;
  }
}
