/** The process-wide write epoch, and the receipt that a prepared text patch is executed against. */
module WriteEpoch {
  import opened Numerals

  const Epochs := 0x1_0000_0000
  const Words := 0x1_0000_0000_0000_0000

  datatype Member =
    | Execute | ExecuteActions | ExecuteActionsChecked | ExecutePreparedTextPatches | ExecuteHistory
    | ExecuteProtocolBundle | PatchCommit | PatchApply | PrepareTextPatches | OtherMember

  /** Every member that can leave the document different from how it found it. */
  predicate MemberWritesDocument(m: Member) {
    !m.PrepareTextPatches? && !m.OtherMember?
  }

  /** The counter: 32 bits that wrap. `boundaries` is how often it has really been incremented. */
  class Epoch {
    var value: nat
    ghost var boundaries: nat

    constructor ()
      ensures Valid() && boundaries == 0
    {
      value, boundaries := 0, 0;
    }

    ghost predicate Valid()
      reads this
    {
      value == boundaries % Epochs
    }

    method Increment()
      requires Valid()
      modifies this
      ensures Valid() && boundaries == old(boundaries) + 1
    {
      value := if value + 1 == Epochs then 0 else value + 1;
      boundaries := boundaries + 1;
    }

    method Current() returns (epoch: nat)
      requires Valid()
      ensures epoch == boundaries % Epochs
    {
      epoch := value;
    }
  }

  /** Counts one boundary when a writing call starts and one when it ends. */
  class WriteEpochBracket {
    const epoch: Epoch
    const writes: bool

    constructor (epoch: Epoch, member: Member, isMethodCall: bool)
      requires epoch.Valid()
      modifies epoch
      ensures this.epoch == epoch && writes == (isMethodCall && MemberWritesDocument(member))
      ensures epoch.Valid() && epoch.boundaries == old(epoch.boundaries) + if writes then 1 else 0
    {
      this.epoch := epoch;
      writes := isMethodCall && MemberWritesDocument(member);
      new;
      if writes {
        epoch.Increment();
      }
    }

    method Close()
      requires epoch.Valid()
      modifies epoch
      ensures epoch.Valid() && epoch.boundaries == old(epoch.boundaries) + if writes then 1 else 0
    {
      if writes {
        epoch.Increment();
      }
    }
  }

  /** What a receipt states: the content as observed, and the epoch. */
  datatype Revision = Revision(content: string, sessionTag: nat, writeEpoch: nat)

  /** The receipt that PrepareTextPatches hands out. */
  method Receipt(epoch: Epoch, content: string, sessionTag: nat) returns (r: Revision)
    requires epoch.Valid()
    ensures r == Revision(content, sessionTag, epoch.boundaries % Epochs)
  {
    var current := epoch.Current();
    r := Revision(content, sessionTag, current);
  }

  /** The revision that ExecutePreparedTextPatches expects inside its own bracket: one epoch back, in 64 bits. */
  method CheckReceipt(epoch: Epoch, content: string, sessionTag: nat, required: Revision) returns (accepted: bool)
    requires epoch.Valid()
    ensures accepted <==> required == Revision(content, sessionTag, Before(epoch.boundaries))
  {
    var current := epoch.Current();
    var actual := Revision(content, sessionTag, if current == 0 then Words - 1 else current - 1);
    accepted := actual == required;
  }

  function Before(boundaries: nat): nat {
    if boundaries % Epochs == 0 then Words - 1 else boundaries % Epochs - 1
  }

  // ----- what happens between the receipt and the check -----

  datatype Boundary = Enter(writer: nat) | Leave(writer: nat)

  datatype State = State(boundaries: nat, writers: set<nat>)

  predicate Happens(s: State, b: Boundary) {
    match b
    case Enter(w) => w !in s.writers
    case Leave(w) => w in s.writers
  }

  function After(s: State, b: Boundary): State {
    match b
    case Enter(w) => State(s.boundaries + 1, s.writers + {w})
    case Leave(w) => State(s.boundaries + 1, s.writers - {w})
  }

  /** Writing calls of any threads start and end in any order. */
  predicate Run(s: State, run: seq<Boundary>)
    decreases |run|
  {
    run == [] || (Happens(s, run[0]) && Run(After(s, run[0]), run[1..]))
  }

  function End(s: State, run: seq<Boundary>): State
    decreases |run|
  {
    if run == [] then s else End(After(s, run[0]), run[1..])
  }

  lemma {:induction false} BoundariesCount(s: State, run: seq<Boundary>)
    ensures End(s, run).boundaries == s.boundaries + |run|
    decreases |run|
  {
    if run != [] {
      BoundariesCount(After(s, run[0]), run[1..]);
    }
  }

  /** A call that has entered and not left since `s` entered in the run. */
  lemma {:induction false} Entered(s: State, run: seq<Boundary>, own: nat)
    requires own !in s.writers && own in End(s, run).writers
    ensures Enter(own) in run
    decreases |run|
  {
    if own !in After(s, run[0]).writers {
      Entered(After(s, run[0]), run[1..], own);
    }
  }

  /** The check passes for the receipt of `s`, as far as the epochs are concerned. */
  predicate EpochAccepted(s: State, t: State) {
    Before(t.boundaries) == s.boundaries % Epochs
  }

  /** Without any bound: one boundary modulo 2^32 since the receipt, and the receipt is not of the last epoch. */
  lemma {:induction false} WhenAccepted(s: State, run: seq<Boundary>)
    ensures EpochAccepted(s, End(s, run)) <==> |run| % Epochs == 1 && s.boundaries % Epochs != Epochs - 1
  {
    BoundariesCount(s, run);
    var a, n := s.boundaries % Epochs, |run| % Epochs;
    SumModulo(s.boundaries, |run|);
    assert (s.boundaries + |run|) % Epochs == (a + n) % Epochs;
    if a + n < Epochs {
      assert (a + n) % Epochs == a + n;
    } else {
      assert (a + n) % Epochs == a + n - Epochs;
    }
  }

  lemma {:induction false} SumModulo(x: nat, y: nat)
    ensures (x + y) % Epochs == (x % Epochs + y % Epochs) % Epochs
  {
    var q := x / Epochs + y / Epochs;
    var r := x % Epochs + y % Epochs;
    assert x + y == q * Epochs + r;
    RemainderShift(r, Epochs, q);
  }

  /**
   * Within fewer than 2^32 boundaries the executing call is accepted exactly when its own start is the only
   * boundary since the receipt and the receipt is not of the last epoch before the counter wraps. Then the writers
   * that are open beside it are those that were open when the receipt was taken, all the time in between.
   */
  lemma {:induction false} SoleBoundary(s: State, run: seq<Boundary>, own: nat)
    requires Run(s, run) && |run| < Epochs && own !in s.writers && own in End(s, run).writers
    ensures EpochAccepted(s, End(s, run)) <==> run == [Enter(own)] && s.boundaries % Epochs != Epochs - 1
    ensures EpochAccepted(s, End(s, run)) ==> End(s, run).writers == s.writers + {own}
  {
    WhenAccepted(s, run);
    Entered(s, run, own);
    if |run| == 1 {
      assert run == [run[0]];
    }
  }

  /** A writer that was already at work when the receipt was taken is not noticed until it ends. */
  lemma {:induction false} OpenWriterGoesUnnoticed(s: State, own: nat, other: nat)
    requires other in s.writers && own !in s.writers && s.boundaries % Epochs != Epochs - 1
    ensures var run := [Enter(own)];
      Run(s, run) && other in End(s, run).writers && EpochAccepted(s, End(s, run))
  {
    var run := [Enter(own)];
    assert run[1..] == [];
    assert Run(After(s, run[0]), []);
    assert End(s, run) == After(s, run[0]);
    SoleBoundary(s, run, own);
  }
}
