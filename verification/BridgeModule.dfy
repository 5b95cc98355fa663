/** The action module's publications: one for the process, one per window, one per document of a window. */
module BridgeModule {
  import opened RotPublication

  // ----- a list of publications -----

  /** The table holds what the list holds and `rest`, and the same of the owners. */
  ghost predicate ListBalances(t: Table, entries: seq<Entry>, rest: multiset<Registration>, others: multiset<nat>)
    reads t
  {
    t.Valid() && t.live == AllHold(entries) + rest && t.owners == AllOwn(entries) + others
  }

  predicate IsAt(e: Entry, window: nat, document: nat) {
    e.window == window && e.document == document
  }

  ghost predicate Absent(entries: seq<Entry>, window: nat, document: nat) {
    forall i :: 0 <= i < |entries| ==> !IsAt(entries[i], window, document)
  }

  /** The list without the publication of one window or document. */
  function Without(entries: seq<Entry>, window: nat, document: nat): seq<Entry> {
    if entries == [] then []
    else
      var last := entries[|entries| - 1];
      Without(entries[..|entries| - 1], window, document) + if IsAt(last, window, document) then [] else [last]
  }

  lemma {:induction false} WithoutAppend(entries: seq<Entry>, e: Entry)
    ensures Without(entries + [e], e.window, e.document) == Without(entries, e.window, e.document)
  {
    assert (entries + [e])[..|entries|] == entries;
  }

  lemma {:induction false} WithoutAbsent(entries: seq<Entry>, window: nat, document: nat)
    requires Absent(entries, window, document)
    ensures Without(entries, window, document) == entries
  {
    if entries != [] {
      WithoutAbsent(entries[..|entries| - 1], window, document);
    }
  }

  lemma {:induction false} WithoutSplit(a: seq<Entry>, b: seq<Entry>, window: nat, document: nat)
    ensures Without(a + b, window, document) == Without(a, window, document) + Without(b, window, document)
    decreases |b|
  {
    if b == [] {
      assert a + b == a;
    } else {
      WithoutSplit(a, b[..|b| - 1], window, document);
      assert (a + b)[..|a + b| - 1] == a + b[..|b| - 1];
    }
  }

  /** Changing or dropping the entry itself changes nothing else. */
  lemma {:induction false} WithoutSelf(entries: seq<Entry>, i: nat, e: Entry)
    requires i < |entries| && e.window == entries[i].window && e.document == entries[i].document
    ensures Without(entries[i := e], e.window, e.document) == Without(entries, e.window, e.document)
    ensures Without(Drop(entries, i), e.window, e.document) == Without(entries, e.window, e.document)
  {
    var a, b := entries[..i], entries[i + 1..];
    assert entries == a + ([entries[i]] + b) && entries[i := e] == a + ([e] + b);
    WithoutSplit(a, b, e.window, e.document);
    WithoutAround(a, entries[i], b, e.window, e.document);
    WithoutAround(a, e, b, e.window, e.document);
  }

  lemma {:induction false} WithoutAround(a: seq<Entry>, e: Entry, b: seq<Entry>, window: nat, document: nat)
    requires IsAt(e, window, document)
    ensures Without(a + ([e] + b), window, document) == Without(a, window, document) + Without(b, window, document)
  {
    WithoutSplit(a, [e] + b, window, document);
    WithoutSplit([e], b, window, document);
    assert [e][..0] == [];
    assert Without([e], window, document) == [];
  }

  method FindEntry(entries: seq<Entry>, window: nat, document: nat) returns (i: nat)
    ensures i <= |entries| && (i < |entries| ==> IsAt(entries[i], window, document))
    ensures i == |entries| ==> Absent(entries, window, document)
  {
    i := 0;
    while i < |entries| && !IsAt(entries[i], window, document)
      invariant i <= |entries| && forall k :: 0 <= k < i ==> !IsAt(entries[k], window, document)
    {
      i := i + 1;
    }
  }

  lemma {:induction false} SingleOut(t: Table, entries: seq<Entry>, i: nat, rest: multiset<Registration>,
                                     others: multiset<nat>)
    requires i < |entries| && ListBalances(t, entries, rest, others)
    ensures Balances(t, entries[i].pair, entries[i].window, entries[i].document,
                     AllHold(Drop(entries, i)) + rest, AllOwn(Drop(entries, i)) + others)
  {
    HoldSplit(entries, i);
  }

  lemma {:induction false} PutBack(t: Table, entries: seq<Entry>, i: nat, e: Entry, rest: multiset<Registration>,
                                   others: multiset<nat>)
    requires i < |entries|
    requires Balances(t, e.pair, e.window, e.document, AllHold(Drop(entries, i)) + rest,
                      AllOwn(Drop(entries, i)) + others)
    ensures ListBalances(t, entries[i := e], rest, others)
    ensures e.pair == NoPair ==> ListBalances(t, Drop(entries, i), rest, others)
  {
    HoldReplace(entries, i, e);
  }

  lemma {:induction false} KeyedAfter(entries: seq<Entry>, i: nat, e: Entry)
    requires i < |entries| && Keyed(entries) && e.window == entries[i].window && e.document == entries[i].document
    requires Sound(e.pair)
    ensures Keyed(Drop(entries, i)) && (!Empty(e.pair) ==> Keyed(entries[i := e]))
  {
  }

  /** Revokes the entry at `i`, and drops it when nothing of it is registered any more. */
  method RevokeEntry(t: Table, entries: seq<Entry>, i: nat, ghost rest: multiset<Registration>,
                     ghost others: multiset<nat>)
    returns (left: seq<Entry>, ok: bool)
    requires i < |entries| && ListBalances(t, entries, rest, others) && Keyed(entries)
    modifies t
    ensures ListBalances(t, left, rest, others) && Keyed(left)
    ensures ok ==> left == Drop(entries, i)
    ensures (ok <==> t.refusals == old(t.refusals)) && t.refusals >= old(t.refusals)
    ensures !ok ==> |left| == |entries| && left == entries[i := entries[i].(pair := left[i].pair)]
  {
    SingleOut(t, entries, i, rest, others);
    var p;
    p, ok := RevokePair(t, entries[i].pair, entries[i].window, entries[i].document,
                        AllHold(Drop(entries, i)) + rest, AllOwn(Drop(entries, i)) + others);
    var e := entries[i].(pair := p);
    PutBack(t, entries, i, e, rest, others);
    KeyedAfter(entries, i, e);
    left := if ok then Drop(entries, i) else entries[i := e];
  }

  /** Takes out the publication of one window or document, if there is one. */
  method RemovePublication(t: Table, entries: seq<Entry>, window: nat, document: nat,
                           ghost rest: multiset<Registration>, ghost others: multiset<nat>)
    returns (left: seq<Entry>, ok: bool)
    requires ListBalances(t, entries, rest, others) && Keyed(entries)
    modifies t
    ensures ListBalances(t, left, rest, others) && Keyed(left)
    ensures Without(left, window, document) == Without(entries, window, document)
    ensures ok ==> Absent(left, window, document)
    ensures (ok <==> t.refusals == old(t.refusals)) && t.refusals >= old(t.refusals)
    ensures Keys(left) <= Keys(entries)
  {
    var i := FindEntry(entries, window, document);
    if i == |entries| {
      return entries, true;
    }
    left, ok := RevokeEntry(t, entries, i, rest, others);
    if ok {
      WithoutSelf(entries, i, entries[i]);
      KeysOfDrop(entries, i);
    } else {
      WithoutSelf(entries, i, left[i]);
      KeysOfReplace(entries, i, left[i]);
    }
  }

  function Keys(entries: seq<Entry>): set<(nat, nat)> {
    set e | e in entries :: (e.window, e.document)
  }

  lemma {:induction false} KeysOfDrop(entries: seq<Entry>, i: nat)
    requires i < |entries|
    ensures Keys(Drop(entries, i)) <= Keys(entries)
    ensures Keyed(entries) ==> Absent(Drop(entries, i), entries[i].window, entries[i].document)
  {
  }

  lemma {:induction false} KeysOfReplace(entries: seq<Entry>, i: nat, e: Entry)
    requires i < |entries| && e.window == entries[i].window && e.document == entries[i].document
    ensures Keys(entries[i := e]) <= Keys(entries)
  {
    forall x | x in entries[i := e] ensures (x.window, x.document) in Keys(entries) {
      var k :| 0 <= k < |entries| && entries[i := e][k] == x;
      assert entries[k] in entries;
    }
  }

  /** Registers a publication for a window or document that has none; what could not be taken back stays listed. */
  method AddPublication(t: Table, entries: seq<Entry>, window: nat, document: nat,
                        ghost rest: multiset<Registration>, ghost others: multiset<nat>)
    returns (more: seq<Entry>, ok: bool)
    requires ListBalances(t, entries, rest, others) && Keyed(entries) && Absent(entries, window, document)
    modifies t
    ensures ListBalances(t, more, rest, others) && Keyed(more)
    ensures Without(more, window, document) == entries
    ensures (ok <==> t.refusals == old(t.refusals)) && t.refusals >= old(t.refusals)
    ensures ok ==> |more| == |entries| + 1 && IsAt(more[|entries|], window, document) && Complete(more[|entries|].pair)
    ensures Keys(more) <= Keys(entries) + {(window, document)}
  {
    var p;
    WithoutAbsent(entries, window, document);
    p, ok := RegisterPair(t, window, document, AllHold(entries) + rest, AllOwn(entries) + others);
    if !ok && Empty(p) {
      return entries, false;
    }
    var e := Entry(window, document, p);
    PutAtEnd(t, entries, e, rest, others);
    KeyedAtEnd(entries, e);
    KeysAtEnd(entries, e);
    WithoutAppend(entries, e);
    more := entries + [e];
  }

  lemma {:induction false} PutAtEnd(t: Table, entries: seq<Entry>, e: Entry, rest: multiset<Registration>,
                                    others: multiset<nat>)
    requires Balances(t, e.pair, e.window, e.document, AllHold(entries) + rest, AllOwn(entries) + others)
    ensures ListBalances(t, entries + [e], rest, others)
  {
    HoldAppend(entries, e);
  }

  lemma {:induction false} KeyedAtEnd(entries: seq<Entry>, e: Entry)
    requires Keyed(entries) && Absent(entries, e.window, e.document) && Sound(e.pair) && !Empty(e.pair)
    ensures Keyed(entries + [e])
  {
  }

  lemma {:induction false} KeysAtEnd(entries: seq<Entry>, e: Entry)
    ensures Keys(entries + [e]) == Keys(entries) + {(e.window, e.document)}
  {
    forall x | x in entries + [e] ensures (x.window, x.document) in Keys(entries) + {(e.window, e.document)} {
      assert x in entries || x == e;
    }
    forall k | k in Keys(entries) ensures k in Keys(entries + [e]) {
      var x :| x in entries && (x.window, x.document) == k;
      assert x in entries + [e];
    }
    assert e in entries + [e];
  }

  /** Revokes every publication of a list, keeping those that something is left of. */
  method RevokeAll(t: Table, entries: seq<Entry>, ghost rest: multiset<Registration>, ghost others: multiset<nat>)
    returns (left: seq<Entry>, ok: bool)
    requires ListBalances(t, entries, rest, others) && Keyed(entries)
    modifies t
    ensures ListBalances(t, left, rest, others) && Keyed(left)
    ensures ok <==> left == []
    ensures (ok <==> t.refusals == old(t.refusals)) && t.refusals >= old(t.refusals)
    ensures Keys(left) <= Keys(entries)
  {
    left, ok := entries, true;
    var i := 0;
    while i < |left|
      invariant i <= |left| && ListBalances(t, left, rest, others) && Keyed(left)
      invariant (ok <==> i == 0) && Keys(left) <= Keys(entries)
      invariant (ok <==> t.refusals == old(t.refusals)) && t.refusals >= old(t.refusals)
      decreases |left| - i
    {
      ghost var before := left;
      var revoked;
      left, revoked := RevokeEntry(t, left, i, rest, others);
      if revoked {
        KeysOfDrop(before, i);
      } else {
        KeysOfReplace(before, i, left[i]);
        i, ok := i + 1, false;
      }
    }
  }

  // ----- the module -----

  /** Window publications carry no document, document publications a positive one; neither is for window zero. */
  ghost predicate WindowKeys(entries: seq<Entry>) {
    forall k | k in Keys(entries) :: k.0 != 0 && k.1 == 0
  }

  ghost predicate DocumentKeys(entries: seq<Entry>) {
    forall k | k in Keys(entries) :: k.0 != 0 && k.1 != 0
  }

  ghost predicate Published(entries: seq<Entry>, window: nat, document: nat) {
    exists i :: 0 <= i < |entries| && IsAt(entries[i], window, document) && Complete(entries[i].pair)
  }

  /** The table holds what the three kinds of publication hold, and nothing else. */
  ghost predicate Accounted(t: Table, main: Pair, windows: seq<Entry>, documents: seq<Entry>)
    reads t
  {
    t.Valid() && t.live == PairHolds(main, 0, 0) + AllHold(windows) + AllHold(documents) &&
    t.owners == OwnerOf(main.batch) + AllOwn(windows) + AllOwn(documents)
  }

  lemma {:induction false} Exchange<T>(a: multiset<T>, b: multiset<T>, c: multiset<T>)
    ensures a + b + c == a + (b + c) && a + b + c == b + (a + c) && a + b + c == c + (a + b)
  {
  }

  /** The same account, seen from the process, from the windows and from the documents. */

  lemma {:induction false} SeenFromMain(t: Table, main: Pair, windows: seq<Entry>, documents: seq<Entry>)
    ensures Accounted(t, main, windows, documents) <==>
            Balances(t, main, 0, 0, AllHold(windows) + AllHold(documents), AllOwn(windows) + AllOwn(documents))
  {
    Exchange(PairHolds(main, 0, 0), AllHold(windows), AllHold(documents));
    Exchange(OwnerOf(main.batch), AllOwn(windows), AllOwn(documents));
  }

  lemma {:induction false} SeenFromWindows(t: Table, main: Pair, windows: seq<Entry>, documents: seq<Entry>)
    ensures Accounted(t, main, windows, documents) <==>
            ListBalances(t, windows, PairHolds(main, 0, 0) + AllHold(documents),
                         OwnerOf(main.batch) + AllOwn(documents))
  {
    Exchange(PairHolds(main, 0, 0), AllHold(windows), AllHold(documents));
    Exchange(OwnerOf(main.batch), AllOwn(windows), AllOwn(documents));
  }

  lemma {:induction false} SeenFromDocuments(t: Table, main: Pair, windows: seq<Entry>, documents: seq<Entry>)
    ensures Accounted(t, main, windows, documents) <==>
            ListBalances(t, documents, PairHolds(main, 0, 0) + AllHold(windows), OwnerOf(main.batch) + AllOwn(windows))
  {
    Exchange(PairHolds(main, 0, 0), AllHold(windows), AllHold(documents));
    Exchange(OwnerOf(main.batch), AllOwn(windows), AllOwn(documents));
  }

  /** When nothing is published, the table is empty. */
  lemma {:induction false} NothingHeld(t: Table)
    requires Accounted(t, NoPair, [], [])
    ensures t.live == multiset{} && t.owners == multiset{}
  {
  }

  lemma {:induction false} WindowKeysKept(was: seq<Entry>, now: seq<Entry>, window: nat)
    requires WindowKeys(was) && Keys(now) <= Keys(was) + {(window, 0)} && window != 0
    ensures WindowKeys(now)
  {
  }

  lemma {:induction false} DocumentKeysKept(was: seq<Entry>, now: seq<Entry>, window: nat, document: nat)
    requires DocumentKeys(was) && Keys(now) <= Keys(was) + {(window, document)} && window != 0 && document != 0
    ensures DocumentKeys(now)
  {
  }

  class UserActionModule {
    const table: Table
    var main: Pair
    var windows: seq<Entry>
    var documents: seq<Entry>

    constructor (table: Table)
      requires table.Valid() && table.live == multiset{} && table.owners == multiset{}
      ensures Valid() && this.table == table && fresh(this)
    {
      this.table, main, windows, documents := table, NoPair, [], [];
    }

    /** The table holds exactly what the cookies say, and every owner reference held is outstanding. */
    ghost predicate Valid()
      reads this, table
    {
      Sound(main) && Keyed(windows) && Keyed(documents) && WindowKeys(windows) && DocumentKeys(documents) &&
      Accounted(table, main, windows, documents)
    }

    /** Replaces the process-wide publication. */
    method PublishMain() returns (ok: bool)
      requires Valid()
      modifies this`main, table
      ensures Valid() && (ok ==> Complete(main))
      ensures (ok <==> table.refusals == old(table.refusals)) && table.refusals >= old(table.refusals)
    {
      ghost var rest := AllHold(windows) + AllHold(documents);
      ghost var others := AllOwn(windows) + AllOwn(documents);
      SeenFromMain(table, main, windows, documents);
      main, ok := RepublishPair(table, main, rest, others);
      SeenFromMain(table, main, windows, documents);
    }

    method PublishWindow(window: nat) returns (ok: bool)
      requires Valid() && window != 0
      modifies this`windows, table
      ensures Valid() && (ok ==> Published(windows, window, 0))
      ensures Without(windows, window, 0) == Without(old(windows), window, 0)
      ensures (ok <==> table.refusals == old(table.refusals)) && table.refusals >= old(table.refusals)
    {
      SeenFromWindows(table, main, windows, documents);
      ghost var was := windows;
      windows, ok := Republish(table, windows, window, 0, PairHolds(main, 0, 0) + AllHold(documents),
                               OwnerOf(main.batch) + AllOwn(documents));
      WindowKeysKept(was, windows, window);
      SeenFromWindows(table, main, windows, documents);
    }

    method PublishDocument(window: nat, document: nat) returns (ok: bool)
      requires Valid() && window != 0 && document != 0
      modifies this`documents, table
      ensures Valid() && (ok ==> Published(documents, window, document))
      ensures Without(documents, window, document) == Without(old(documents), window, document)
      ensures (ok <==> table.refusals == old(table.refusals)) && table.refusals >= old(table.refusals)
    {
      SeenFromDocuments(table, main, windows, documents);
      ghost var was := documents;
      documents, ok := Republish(table, documents, window, document, PairHolds(main, 0, 0) + AllHold(windows),
                                 OwnerOf(main.batch) + AllOwn(windows));
      DocumentKeysKept(was, documents, window, document);
      SeenFromDocuments(table, main, windows, documents);
    }

    /**
     * Publishes the process, then the window, then the document. `window` and `document` are zero when they could
     * not be read; `room` says whether the lists could be extended beforehand.
     */
    method Publish(reachable: bool, window: nat, document: nat, room: bool) returns (ok: bool)
      requires Valid()
      modifies this, table
      ensures Valid()
      ensures ok <==> reachable && (window != 0 ==> room) && table.refusals == old(table.refusals)
      ensures ok ==> Complete(main) && (window != 0 ==> Published(windows, window, 0))
      ensures ok && window != 0 && document != 0 ==> Published(documents, window, document)
      ensures if window == 0 then windows == old(windows)
              else Without(windows, window, 0) == Without(old(windows), window, 0)
      ensures if window == 0 || document == 0 then documents == old(documents)
              else Without(documents, window, document) == Without(old(documents), window, document)
    {
      if !reachable || (window != 0 && !room) {
        return false;
      }
      ok := PublishMain();
      if ok && window != 0 {
        ok := PublishLists(window, document);
      }
    }

    method PublishLists(window: nat, document: nat) returns (ok: bool)
      requires Valid() && window != 0
      modifies this`windows, this`documents, table
      ensures Valid() && (ok ==> Published(windows, window, 0))
      ensures ok && document != 0 ==> Published(documents, window, document)
      ensures (ok <==> table.refusals == old(table.refusals)) && table.refusals >= old(table.refusals)
      ensures Without(windows, window, 0) == Without(old(windows), window, 0)
      ensures if document == 0 then documents == old(documents)
              else Without(documents, window, document) == Without(old(documents), window, document)
    {
      ok := PublishWindow(window);
      if ok && document != 0 {
        ok := PublishDocument(window, document);
      }
    }

    /** Takes everything out. It succeeds exactly when nothing is left in the table. */
    method Revoke(reachable: bool) returns (ok: bool)
      requires Valid()
      modifies this, table
      ensures Valid()
      ensures ok ==> table.live == multiset{} && table.owners == multiset{}
      ensures ok <==> reachable && table.refusals == old(table.refusals)
      ensures ok <==> reachable && main == NoPair && windows == [] && documents == []
    {
      if !reachable {
        return false;
      }
      var listsOut := RevokeLists();
      var mainOut := RevokeMain();
      ok := listsOut && mainOut;
      if ok {
        NothingHeld(table);
      }
    }

    method RevokeLists() returns (ok: bool)
      requires Valid()
      modifies this`windows, this`documents, table
      ensures Valid() && (ok <==> windows == [] && documents == [])
      ensures (ok <==> table.refusals == old(table.refusals)) && table.refusals >= old(table.refusals)
    {
      var documentsOut := RevokeDocuments();
      var windowsOut := RevokeWindows();
      ok := documentsOut && windowsOut;
    }

    method RevokeDocuments() returns (ok: bool)
      requires Valid()
      modifies this`documents, table
      ensures Valid() && (ok <==> documents == [])
      ensures (ok <==> table.refusals == old(table.refusals)) && table.refusals >= old(table.refusals)
    {
      SeenFromDocuments(table, main, windows, documents);
      documents, ok := RevokeAll(table, documents, PairHolds(main, 0, 0) + AllHold(windows),
                                 OwnerOf(main.batch) + AllOwn(windows));
      SeenFromDocuments(table, main, windows, documents);
    }

    method RevokeWindows() returns (ok: bool)
      requires Valid()
      modifies this`windows, table
      ensures Valid() && (ok <==> windows == [])
      ensures (ok <==> table.refusals == old(table.refusals)) && table.refusals >= old(table.refusals)
    {
      SeenFromWindows(table, main, windows, documents);
      windows, ok := RevokeAll(table, windows, PairHolds(main, 0, 0) + AllHold(documents),
                               OwnerOf(main.batch) + AllOwn(documents));
      SeenFromWindows(table, main, windows, documents);
    }

    method RevokeMain() returns (ok: bool)
      requires Valid()
      modifies this`main, table
      ensures Valid() && (ok <==> main == NoPair)
      ensures (ok <==> table.refusals == old(table.refusals)) && table.refusals >= old(table.refusals)
    {
      SeenFromMain(table, main, windows, documents);
      main, ok := RevokePair(table, main, 0, 0, AllHold(windows) + AllHold(documents),
                             AllOwn(windows) + AllOwn(documents));
      SeenFromMain(table, main, windows, documents);
    }
  }

  /** Takes the process-wide publication out and puts a new one in. */
  method RepublishPair(t: Table, p: Pair, ghost rest: multiset<Registration>, ghost others: multiset<nat>)
    returns (q: Pair, ok: bool)
    requires Balances(t, p, 0, 0, rest, others) && Sound(p)
    modifies t
    ensures Balances(t, q, 0, 0, rest, others) && Sound(q) && (ok ==> Complete(q))
    ensures (ok <==> t.refusals == old(t.refusals)) && t.refusals >= old(t.refusals)
  {
    q, ok := RevokePair(t, p, 0, 0, rest, others);
    if ok {
      q, ok := RegisterPair(t, 0, 0, rest, others);
    }
  }

  /** Takes an old publication out and puts a new one in; if the old one cannot be taken out, it stays alone. */
  method Republish(t: Table, entries: seq<Entry>, window: nat, document: nat, ghost rest: multiset<Registration>,
                   ghost others: multiset<nat>)
    returns (more: seq<Entry>, ok: bool)
    requires ListBalances(t, entries, rest, others) && Keyed(entries)
    modifies t
    ensures ListBalances(t, more, rest, others) && Keyed(more)
    ensures Without(more, window, document) == Without(entries, window, document)
    ensures ok ==> Published(more, window, document)
    ensures (ok <==> t.refusals == old(t.refusals)) && t.refusals >= old(t.refusals)
    ensures Keys(more) <= Keys(entries) + {(window, document)}
  {
    more, ok := RemovePublication(t, entries, window, document, rest, others);
    if ok {
      WithoutAbsent(more, window, document);
      more, ok := AddPublication(t, more, window, document, rest, others);
    }
  }

  // ----- names -----

  lemma {:induction false} HeldByOne(entries: seq<Entry>, r: Registration)
    requires |entries| > 0 && r in AllHold(entries)
    ensures r in Holds(entries[0]) || r in AllHold(entries[1..])
  {
    assert AllHold(entries) == Holds(entries[0]) + AllHold(entries[1..]);
  }

  lemma {:induction false} HeldBehind(entries: seq<Entry>, r: Registration, k: nat) returns (i: nat)
    requires k + 1 < |entries| && r in Holds(entries[1..][k])
    ensures i < |entries| && r in Holds(entries[i])
  {
    i := k + 1;
    assert entries[1..][k] == entries[i];
  }

  lemma {:induction false} Holder(entries: seq<Entry>, r: Registration) returns (i: nat)
    requires r in AllHold(entries)
    ensures i < |entries| && r in Holds(entries[i])
  {
    HeldByOne(entries, r);
    if r in Holds(entries[0]) {
      i := 0;
    } else {
      var k := Holder(entries[1..], r);
      i := HeldBehind(entries, r, k);
    }
  }

  predicate SameName(a: Registration, b: Registration) {
    a.batch == b.batch && a.window == b.window && a.document == b.document
  }

  lemma {:induction false} OnePerNameInList(entries: seq<Entry>, a: Registration, b: Registration)
    requires Keyed(entries) && a in AllHold(entries) && b in AllHold(entries) && SameName(a, b)
    ensures a == b && (a.window, a.document) in Keys(entries)
  {
    var i := Holder(entries, a);
    var j := Holder(entries, b);
    NamedByEntry(entries[i], a);
    NamedByEntry(entries[j], b);
    assert entries[i] in entries && i == j;
  }

  /** A pair holds one registration of each form. */
  lemma {:induction false} OnePerForm(p: Pair, window: nat, document: nat, a: Registration, b: Registration)
    requires a in PairHolds(p, window, document) && b in PairHolds(p, window, document) && a.batch == b.batch
    ensures a == b
  {
  }

  /** A registration carries the name of the entry that holds it. */
  lemma {:induction false} NamedByEntry(e: Entry, r: Registration)
    requires r in Holds(e)
    ensures IsAt(e, r.window, r.document) && e.pair != NoPair
  {
  }

  /** At any time at most one live registration stands under each name. */
  lemma {:induction false} OnePerName(m: UserActionModule, a: Registration, b: Registration)
    requires m.Valid() && a in m.table.live && b in m.table.live && SameName(a, b)
    ensures a == b
  {
    WhereHeld(m, a);
    WhereHeld(m, b);
    if a.window == 0 {
      OnePerForm(m.main, 0, 0, a, b);
    } else if a.document == 0 {
      OnePerNameInList(m.windows, a, b);
    } else {
      OnePerNameInList(m.documents, a, b);
    }
  }

  /** The name of a live registration tells who holds its cookie. */
  lemma {:induction false} WhereHeld(m: UserActionModule, r: Registration)
    requires m.Valid() && r in m.table.live
    ensures if r.window == 0 then r in PairHolds(m.main, 0, 0)
            else if r.document == 0 then r in AllHold(m.windows)
            else r in AllHold(m.documents)
  {
    if r in AllHold(m.windows) {
      OnePerNameInList(m.windows, r, r);
    }
    if r in AllHold(m.documents) {
      OnePerNameInList(m.documents, r, r);
    }
  }
}
