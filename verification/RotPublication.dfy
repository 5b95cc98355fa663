/** Publishing the document object and its batch automation in the running object table, and taking them out again. */
module RotPublication {

  /**
   * A live registration: under which name it stands. The process-wide one has no window, a window's has no document.
   */
  datatype Registration = Registration(cookie: nat, batch: bool, window: nat, document: nat)

  /** What one publication holds: two cookies, zero when not registered, and the owner reference to its batch object. */
  datatype Pair = Pair(raw: nat, batchCookie: nat, batch: nat)

  const NoPair := Pair(0, 0, 0)

  datatype Entry = Entry(window: nat, document: nat, pair: Pair)

  /** The table, and the batch objects whose owner reference has not been released. Failures are arbitrary. */
  class Table {
    const script: nat -> bool
    var calls: nat
    var live: multiset<Registration>
    var owners: multiset<nat>
    var nextCookie: nat
    var nextBatch: nat
    /** How often the table or the allocator has said no. */
    ghost var refusals: nat

    constructor (script: nat -> bool)
      ensures Valid() && live == multiset{} && owners == multiset{}
    {
      this.script, calls, live, owners, nextCookie, nextBatch := script, 0, multiset{}, multiset{}, 1, 1;
      refusals := 0;
    }

    ghost predicate Valid()
      reads this
    {
      nextCookie > 0 && nextBatch > 0 &&
      (forall r | r in live :: 0 < r.cookie < nextCookie) && (forall b | b in owners :: 0 < b < nextBatch)
    }

    /** A failed registration yields no cookie; a successful one a cookie that no live registration has. */
    method Register(batch: bool, window: nat, document: nat) returns (cookie: nat)
      requires Valid()
      modifies this
      ensures Valid() && owners == old(owners)
      ensures live == old(live) + RegistrationOf(cookie, batch, window, document)
      ensures forall r :: r in old(live) ==> r.cookie != cookie
      ensures refusals == old(refusals) + if cookie == 0 then 1 else 0
    {
      var ok := script(calls);
      calls, cookie := calls + 1, 0;
      refusals := refusals + if ok then 0 else 1;
      if ok {
        cookie, nextCookie := nextCookie, nextCookie + 1;
        live := live + multiset{Registration(cookie, batch, window, document)};
      }
    }

    /** A failed revocation leaves the registration live. */
    method Revoke(r: Registration) returns (ok: bool)
      requires Valid() && r in live
      modifies this
      ensures Valid() && owners == old(owners)
      ensures live == if ok then old(live) - multiset{r} else old(live)
      ensures refusals == old(refusals) + if ok then 0 else 1
    {
      ok := script(calls);
      calls := calls + 1;
      refusals := refusals + if ok then 0 else 1;
      if ok {
        live := live - multiset{r};
      }
    }

    /** A new batch object with its owner reference, or zero when there is no memory. */
    method NewBatch() returns (batch: nat)
      requires Valid()
      modifies this
      ensures Valid() && live == old(live) && batch !in old(owners)
      ensures owners == old(owners) + OwnerOf(batch)
      ensures refusals == old(refusals) + if batch == 0 then 1 else 0
    {
      var ok := script(calls);
      calls, batch := calls + 1, 0;
      refusals := refusals + if ok then 0 else 1;
      if ok {
        batch, nextBatch := nextBatch, nextBatch + 1;
        owners := owners + multiset{batch};
      }
    }

    /** Releases an owner reference, which must be outstanding. */
    method Release(batch: nat)
      requires Valid() && batch in owners
      modifies this
      ensures Valid() && live == old(live) && owners == old(owners) - multiset{batch} && refusals == old(refusals)
    {
      owners := owners - multiset{batch};
    }
  }

  // ----- what is held -----

  function RegistrationOf(cookie: nat, batch: bool, window: nat, document: nat): multiset<Registration> {
    if cookie == 0 then multiset{} else multiset{Registration(cookie, batch, window, document)}
  }

  function OwnerOf(batch: nat): multiset<nat> {
    if batch == 0 then multiset{} else multiset{batch}
  }

  function PairHolds(p: Pair, window: nat, document: nat): multiset<Registration> {
    RegistrationOf(p.raw, false, window, document) + RegistrationOf(p.batchCookie, true, window, document)
  }

  function Holds(e: Entry): multiset<Registration> {
    PairHolds(e.pair, e.window, e.document)
  }

  function AllHold(entries: seq<Entry>): multiset<Registration> {
    if entries == [] then multiset{} else Holds(entries[0]) + AllHold(entries[1..])
  }

  function AllOwn(entries: seq<Entry>): multiset<nat> {
    if entries == [] then multiset{} else OwnerOf(entries[0].pair.batch) + AllOwn(entries[1..])
  }

  predicate Empty(p: Pair) {
    p.raw == 0 && p.batchCookie == 0
  }

  /** A batch object is owned as long as anything of its pair is registered, and a registered one is owned. */
  predicate Sound(p: Pair) {
    (p.batch != 0 ==> !Empty(p)) && (p.batchCookie != 0 ==> p.batch != 0)
  }

  predicate Complete(p: Pair) {
    p.raw != 0 && p.batchCookie != 0
  }

  ghost predicate Keyed(entries: seq<Entry>) {
    (forall i :: 0 <= i < |entries| ==> Sound(entries[i].pair) && !Empty(entries[i].pair)) &&
    forall i, j :: 0 <= i < j < |entries| ==>
      entries[i].window != entries[j].window || entries[i].document != entries[j].document
  }

  lemma {:induction false} HoldAppend(entries: seq<Entry>, e: Entry)
    ensures AllHold(entries + [e]) == AllHold(entries) + Holds(e)
    ensures AllOwn(entries + [e]) == AllOwn(entries) + OwnerOf(e.pair.batch)
  {
    if entries == [] {
      assert [e][1..] == [] && entries + [e] == [e];
    } else {
      assert (entries + [e])[1..] == entries[1..] + [e];
      HoldAppend(entries[1..], e);
    }
  }

  function Drop(entries: seq<Entry>, i: nat): seq<Entry>
    requires i < |entries|
  {
    entries[..i] + entries[i + 1..]
  }

  lemma {:induction false} DropStep(entries: seq<Entry>, i: nat)
    requires 0 < i < |entries|
    ensures Drop(entries, i) == [entries[0]] + Drop(entries[1..], i - 1)
  {
    assert entries[..i] == [entries[0]] + entries[1..][..i - 1];
    assert entries[i + 1..] == entries[1..][i..];
  }

  lemma {:induction false} HoldCons(e: Entry, rest: seq<Entry>)
    ensures AllHold([e] + rest) == Holds(e) + AllHold(rest)
    ensures AllOwn([e] + rest) == OwnerOf(e.pair.batch) + AllOwn(rest)
  {
    assert ([e] + rest)[1..] == rest;
  }

  lemma {:induction false} Regroup<T>(a: multiset<T>, b: multiset<T>, c: multiset<T>)
    ensures a + (b + c) == (a + b) + c
  {
  }

  lemma {:induction false} HoldSplit(entries: seq<Entry>, i: nat)
    requires i < |entries|
    ensures AllHold(entries) == AllHold(Drop(entries, i)) + Holds(entries[i])
    ensures AllOwn(entries) == AllOwn(Drop(entries, i)) + OwnerOf(entries[i].pair.batch)
    decreases i
  {
    if i == 0 {
      assert Drop(entries, 0) == entries[1..];
    } else {
      var tail := entries[1..];
      HoldSplit(tail, i - 1);
      DropStep(entries, i);
      HoldCons(entries[0], Drop(tail, i - 1));
      Regroup(Holds(entries[0]), AllHold(Drop(tail, i - 1)), Holds(entries[i]));
      Regroup(OwnerOf(entries[0].pair.batch), AllOwn(Drop(tail, i - 1)), OwnerOf(entries[i].pair.batch));
    }
  }

  lemma {:induction false} HoldReplace(entries: seq<Entry>, i: nat, e: Entry)
    requires i < |entries|
    ensures AllHold(entries[i := e]) == AllHold(Drop(entries, i)) + Holds(e)
    ensures AllOwn(entries[i := e]) == AllOwn(Drop(entries, i)) + OwnerOf(e.pair.batch)
  {
    var changed := entries[i := e];
    HoldSplit(changed, i);
    assert Drop(changed, i) == Drop(entries, i);
  }

  // ----- one pair -----

  /** The table holds what `p` holds and `rest`, and the same of the owners. */
  ghost predicate Balances(t: Table, p: Pair, window: nat, document: nat, rest: multiset<Registration>,
                           others: multiset<nat>)
    reads t
  {
    t.Valid() && t.live == PairHolds(p, window, document) + rest && t.owners == OwnerOf(p.batch) + others
  }

  method RevokeBatch(t: Table, p: Pair, window: nat, document: nat, ghost rest: multiset<Registration>,
                     ghost others: multiset<nat>)
    returns (q: Pair, ok: bool)
    requires Balances(t, p, window, document, rest, others)
    modifies t
    ensures Balances(t, q, window, document, rest, others)
    ensures q == if ok then p.(batchCookie := 0) else p
    ensures !ok ==> p.batchCookie != 0
    ensures t.refusals == old(t.refusals) + if ok then 0 else 1
  {
    if p.batchCookie == 0 {
      return p, true;
    }
    ok := t.Revoke(Registration(p.batchCookie, true, window, document));
    q := if ok then p.(batchCookie := 0) else p;
  }

  method RevokeRaw(t: Table, p: Pair, window: nat, document: nat, ghost rest: multiset<Registration>,
                   ghost others: multiset<nat>)
    returns (q: Pair, ok: bool)
    requires Balances(t, p, window, document, rest, others)
    modifies t
    ensures Balances(t, q, window, document, rest, others)
    ensures q == if ok then p.(raw := 0) else p
    ensures !ok ==> p.raw != 0
    ensures t.refusals == old(t.refusals) + if ok then 0 else 1
  {
    if p.raw == 0 {
      return p, true;
    }
    ok := t.Revoke(Registration(p.raw, false, window, document));
    q := if ok then p.(raw := 0) else p;
  }

  method ReleaseBatch(t: Table, p: Pair, window: nat, document: nat, ghost rest: multiset<Registration>,
                      ghost others: multiset<nat>)
    returns (q: Pair)
    requires Balances(t, p, window, document, rest, others)
    modifies t
    ensures Balances(t, q, window, document, rest, others) && q == p.(batch := 0) && t.refusals == old(t.refusals)
  {
    if p.batch != 0 {
      t.Release(p.batch);
    }
    q := p.(batch := 0);
  }

  /** Revokes the batch registration, then the raw one; when both are gone, the owner reference goes too. */
  method RevokePair(t: Table, p: Pair, window: nat, document: nat, ghost rest: multiset<Registration>,
                    ghost others: multiset<nat>)
    returns (q: Pair, ok: bool)
    requires Balances(t, p, window, document, rest, others) && Sound(p)
    modifies t
    ensures Balances(t, q, window, document, rest, others) && Sound(q)
    ensures (ok <==> Empty(q)) && (ok <==> q == NoPair)
    ensures (ok <==> t.refusals == old(t.refusals)) && t.refusals >= old(t.refusals)
  {
    var revoked;
    q, ok := RevokeBatch(t, p, window, document, rest, others);
    q, revoked := RevokeRaw(t, q, window, document, rest, others);
    ok := ok && revoked;
    if Empty(q) {
      q := ReleaseBatch(t, q, window, document, rest, others);
    }
  }

  /** Registers a new batch object beside a registered document object, or leaves that alone. */
  method RegisterBatch(t: Table, raw: nat, window: nat, document: nat, ghost rest: multiset<Registration>,
                       ghost others: multiset<nat>)
    returns (q: Pair, ok: bool)
    requires Balances(t, Pair(raw, 0, 0), window, document, rest, others) && raw != 0
    modifies t
    ensures Balances(t, q, window, document, rest, others) && Sound(q)
    ensures if ok then Complete(q) else q == Pair(raw, 0, 0)
    ensures (ok <==> t.refusals == old(t.refusals)) && t.refusals >= old(t.refusals)
  {
    q, ok := Pair(raw, 0, 0), false;
    var batch := t.NewBatch();
    if batch == 0 {
      return;
    }
    var cookie := t.Register(true, window, document);
    q, ok := Pair(raw, cookie, batch), cookie != 0;
    if !ok {
      q := ReleaseBatch(t, q, window, document, rest, others);
    }
  }

  /** Registers the document object and a new batch object for it, or neither when nothing can be left behind. */
  method RegisterPair(t: Table, window: nat, document: nat, ghost rest: multiset<Registration>,
                      ghost others: multiset<nat>)
    returns (q: Pair, ok: bool)
    requires Balances(t, NoPair, window, document, rest, others)
    modifies t
    ensures Balances(t, q, window, document, rest, others) && Sound(q)
    ensures (ok ==> Complete(q)) && (!ok ==> q.batchCookie == 0 && q.batch == 0)
    ensures (ok <==> t.refusals == old(t.refusals)) && t.refusals >= old(t.refusals)
  {
    q, ok := NoPair, false;
    var raw := t.Register(false, window, document);
    if raw == 0 {
      return;
    }
    q, ok := RegisterBatch(t, raw, window, document, rest, others);
    if !ok {
      var revoked;
      q, revoked := RevokeRaw(t, q, window, document, rest, others);
    }
  }
}
