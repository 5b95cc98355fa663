/** Applying root and fingerprint patches to a record file and to its copy in memory. */
module FilePatches {
  import opened ByteStreams

  const MaximumWrite := 0xFFFF_FFFF

  datatype Patch = Patch(offset: nat, bytes: Bytes) {
    function End(): nat { offset + |bytes| }

    predicate Covers(position: nat) { offset <= position < End() }
  }

  /** What the operating system does with one write: how many bytes arrive, and whether it reports success. */
  datatype WriteOutcome = WriteOutcome(reported: bool, written: nat)

  class RecordFile {
    var content: Bytes

    constructor (initial: Bytes)
      ensures content == initial
    {
      content := initial;
    }

    /** A positioned write inside the file. A failing one may still leave a prefix behind. */
    method WriteAt(offset: nat, data: Bytes, outcome: WriteOutcome) returns (ok: bool)
      requires offset + |data| <= |content|
      modifies this
      ensures ok <==> outcome == WriteOutcome(true, |data|)
      ensures content == Arrived(old(content), offset, data, outcome)
    {
      content := Arrived(content, offset, data, outcome);
      ok := outcome.reported && outcome.written == |data|;
    }
  }

  function Arrived(content: Bytes, offset: nat, data: Bytes, outcome: WriteOutcome): Bytes
    requires offset + |data| <= |content|
  {
    Write(content, offset, data[..if outcome.written <= |data| then outcome.written else |data|])
  }

  /** Patch `i` lies in the content, is not empty, and begins no earlier than the one before it ends. */
  predicate Placed(patches: seq<Patch>, size: nat, i: nat)
    requires i < |patches|
  {
    0 < |patches[i].bytes| <= MaximumWrite && patches[i].End() <= size &&
    (i > 0 ==> patches[i - 1].End() <= patches[i].offset)
  }

  predicate AllPlaced(patches: seq<Patch>, size: nat) {
    forall i :: 0 <= i < |patches| ==> Placed(patches, size, i)
  }

  /** The content with the patches written one after the other. */
  function Patched(content: Bytes, patches: seq<Patch>): (after: Bytes)
    requires AllPlaced(patches, |content|)
    ensures |after| == |content|
  {
    if patches == [] then content
    else
      var last := |patches| - 1;
      assert Placed(patches, |content|, last);
      assert forall i :: 0 <= i < last ==> Placed(patches, |content|, i) ==> Placed(patches[..last], |content|, i);
      Write(Patched(content, patches[..last]), patches[last].offset, patches[last].bytes)
  }

  predicate Holds(content: Bytes, patch: Patch) {
    patch.End() <= |content| && content[patch.offset..patch.End()] == patch.bytes
  }

  /** The check that the spool makes before each compact pass. */
  predicate PatchesMatch(patches: seq<Patch>, content: Bytes) {
    patches != [] && forall i :: 0 <= i < |patches| ==> Holds(content, patches[i])
  }

  ghost predicate Untouched(patches: seq<Patch>, position: nat) {
    forall i :: 0 <= i < |patches| ==> !patches[i].Covers(position)
  }

  ghost predicate ChangedOnlyIn(patches: seq<Patch>, before: Bytes, after: Bytes) {
    |after| == |before| &&
    forall p :: 0 <= p < |before| && Untouched(patches, p) ==> after[p] == before[p]
  }

  lemma {:induction false} EndsAscend(patches: seq<Patch>, size: nat, i: nat, j: nat)
    requires AllPlaced(patches, size) && i < j < |patches|
    ensures patches[i].End() <= patches[j].offset
    decreases j
  {
    assert Placed(patches, size, j) && Placed(patches, size, j - 1);
    if i < j - 1 {
      EndsAscend(patches, size, i, j - 1);
    }
  }

  /** A write behind a patch leaves it in place. */
  lemma {:induction false} LaterWriteKeeps(content: Bytes, patch: Patch, offset: nat, data: Bytes)
    requires Holds(content, patch) && patch.End() <= offset && offset + |data| <= |content|
    ensures Holds(Write(content, offset, data), patch)
  {
    assert Write(content, offset, data)[..offset] == content[..offset];
    assert content[..offset][patch.offset..patch.End()] == content[patch.offset..patch.End()];
    assert Write(content, offset, data)[..offset][patch.offset..patch.End()] ==
           Write(content, offset, data)[patch.offset..patch.End()];
  }

  lemma {:induction false} OneMoreHolds(was: Bytes, patches: seq<Patch>, now: Bytes)
    requires patches != [] && AllPlaced(patches, |was|) && Placed(patches, |was|, |patches| - 1)
    requires forall i :: 0 <= i < |patches| - 1 ==> Holds(was, patches[i])
    requires now == Write(was, patches[|patches| - 1].offset, patches[|patches| - 1].bytes)
    ensures PatchesMatch(patches, now)
  {
    var last := |patches| - 1;
    assert now[patches[last].offset..patches[last].End()] == patches[last].bytes;
    forall i | 0 <= i < last ensures Holds(now, patches[i]) {
      EndsAscend(patches, |was|, i, last);
      LaterWriteKeeps(was, patches[i], patches[last].offset, patches[last].bytes);
    }
  }

  lemma {:induction false} OneMoreChanges(content: Bytes, before: seq<Patch>, was: Bytes, patch: Patch, now: Bytes)
    requires ChangedOnlyIn(before, content, was) && patch.End() <= |was|
    requires now == Write(was, patch.offset, patch.bytes)
    ensures ChangedOnlyIn(before + [patch], content, now)
  {
    var patches := before + [patch];
    forall p | 0 <= p < |content| && Untouched(patches, p) ensures now[p] == content[p] {
      assert patches[|before|] == patch && !patch.Covers(p);
      assert forall i :: 0 <= i < |before| ==> patches[i] == before[i];
      assert Untouched(before, p);
    }
  }

  /** After the patches are written each of them is there, and nothing else has changed. */
  lemma {:induction false} PatchedHolds(content: Bytes, patches: seq<Patch>)
    requires AllPlaced(patches, |content|)
    ensures patches != [] ==> PatchesMatch(patches, Patched(content, patches))
    ensures ChangedOnlyIn(patches, content, Patched(content, patches))
  {
    if patches != [] {
      var last := |patches| - 1;
      var before := patches[..last];
      assert Placed(patches, |content|, last);
      PrefixPlaced(patches, |content|, last);
      PatchedHolds(content, before);
      var was := Patched(content, before);
      assert forall i :: 0 <= i < last ==> before[i] == patches[i];
      OneMoreHolds(was, patches, Write(was, patches[last].offset, patches[last].bytes));
      OneMoreChanges(content, before, was, patches[last], Write(was, patches[last].offset, patches[last].bytes));
      assert before + [patches[last]] == patches;
    }
  }

  lemma {:induction false} PrefixPlaced(patches: seq<Patch>, size: nat, k: nat)
    requires AllPlaced(patches, size) && k <= |patches|
    ensures AllPlaced(patches[..k], size)
  {
    forall i | 0 <= i < k ensures Placed(patches[..k], size, i) {
      assert Placed(patches, size, i);
    }
  }

  lemma {:induction false} PatchedStep(content: Bytes, patches: seq<Patch>, k: nat)
    requires k < |patches| && AllPlaced(patches[..k], |content|) && Placed(patches, |content|, k)
    ensures AllPlaced(patches[..k + 1], |content|)
    ensures Patched(content, patches[..k + 1]) ==
            Write(Patched(content, patches[..k]), patches[k].offset, patches[k].bytes)
  {
    var more := patches[..k + 1];
    forall i | 0 <= i < |more| ensures Placed(more, |content|, i) {
      if i < k { assert Placed(patches[..k], |content|, i); }
    }
    assert patches[..k + 1][..k] == patches[..k];
  }

  lemma {:induction false} PrefixChanged(content: Bytes, patches: seq<Patch>, k: nat)
    requires k <= |patches| && AllPlaced(patches[..k], |content|)
    ensures ChangedOnlyIn(patches, content, Patched(content, patches[..k]))
  {
    PatchedHolds(content, patches[..k]);
    forall p | 0 <= p < |content| && Untouched(patches, p)
      ensures Patched(content, patches[..k])[p] == content[p]
    {
      assert Untouched(patches[..k], p);
    }
  }

  /** Every write arrives in full. */
  ghost predicate AllWritten(patches: seq<Patch>, outcome: nat -> WriteOutcome) {
    forall i :: 0 <= i < |patches| ==> outcome(i) == WriteOutcome(true, |patches[i].bytes|)
  }

  /** The first `k` patches are placed, have arrived and are in `now`. */
  ghost predicate Applied(was: Bytes, patches: seq<Patch>, k: nat, outcome: nat -> WriteOutcome, now: Bytes) {
    k <= |patches| && AllPlaced(patches[..k], |was|) && AllWritten(patches[..k], outcome) &&
    now == Patched(was, patches[..k])
  }

  lemma {:induction false} AppliedChanges(was: Bytes, patches: seq<Patch>, k: nat, outcome: nat -> WriteOutcome,
                                          now: Bytes)
    requires Applied(was, patches, k, outcome, now)
    ensures ChangedOnlyIn(patches, was, now)
  {
    PrefixChanged(was, patches, k);
  }

  lemma {:induction false} AppliedNext(was: Bytes, patches: seq<Patch>, k: nat, outcome: nat -> WriteOutcome,
                                       now: Bytes)
    requires Applied(was, patches, k, outcome, now) && k < |patches| && Placed(patches, |was|, k)
    ensures patches[k].End() <= |now|
    ensures outcome(k) == WriteOutcome(true, |patches[k].bytes|) ==>
              Applied(was, patches, k + 1, outcome, Write(now, patches[k].offset, patches[k].bytes))
    ensures outcome(k) != WriteOutcome(true, |patches[k].bytes|) ==> !AllWritten(patches, outcome)
  {
    PatchedStep(was, patches, k);
  }

  lemma {:induction false} AppliedToEnd(was: Bytes, patches: seq<Patch>, outcome: nat -> WriteOutcome, now: Bytes)
    requires Applied(was, patches, |patches|, outcome, now)
    ensures AllPlaced(patches, |was|) && AllWritten(patches, outcome) && now == Patched(was, patches)
    ensures ChangedOnlyIn(patches, was, now) && (patches != [] ==> PatchesMatch(patches, now))
  {
    assert patches[..|patches|] == patches;
    PatchedHolds(was, patches);
  }

  /**
   * Writes each patch to the file and then to memory. It reports success exactly when the patches are placed in
   * ascending order, every write arrives and the flush asked for succeeds. Whatever happens, neither the file
   * nor the memory changes outside the patches.
   */
  method ApplyPatches(file: RecordFile, patches: seq<Patch>, bytes: array<Byte>, durable: bool,
                      outcome: nat -> WriteOutcome, flushed: bool)
    returns (ok: bool)
    requires file.content == bytes[..]
    modifies file, bytes
    ensures ok <==> patches != [] && AllPlaced(patches, bytes.Length) && AllWritten(patches, outcome) &&
                    (durable ==> flushed)
    ensures ok ==> file.content == bytes[..] && bytes[..] == Patched(old(bytes[..]), patches)
    ensures ok ==> PatchesMatch(patches, bytes[..])
    ensures ChangedOnlyIn(patches, old(bytes[..]), bytes[..])
    ensures ChangedOnlyIn(patches, old(bytes[..]), file.content)
  {
    if patches == [] {
      return false;
    }
    ghost var was := bytes[..];
    var priorEnd, k := 0, 0;
    while k < |patches|
      invariant Applied(was, patches, k, outcome, bytes[..])
      invariant k > 0 ==> priorEnd == patches[k - 1].End()
      invariant file.content == bytes[..]
    {
      AppliedChanges(was, patches, k, outcome, bytes[..]);
      var patch := patches[k];
      if patch.bytes == [] || |patch.bytes| > MaximumWrite || patch.offset > bytes.Length ||
         |patch.bytes| > bytes.Length - patch.offset || (k != 0 && patch.offset < priorEnd)
      {
        assert !Placed(patches, |was|, k);
        return false;
      }
      AppliedNext(was, patches, k, outcome, bytes[..]);
      PartialWrite(was, patches, k, bytes[..], outcome(k));
      var written := WriteBoth(file, patch, bytes, outcome(k));
      if !written {
        return false;
      }
      priorEnd := patch.End();
      k := k + 1;
    }
    AppliedToEnd(was, patches, outcome, bytes[..]);
    return !durable || flushed;
  }

  /** One patch goes to the file and then, if it arrives there, to memory. */
  method WriteBoth(file: RecordFile, patch: Patch, bytes: array<Byte>, outcome: WriteOutcome) returns (written: bool)
    requires file.content == bytes[..] && patch.End() <= bytes.Length
    modifies file, bytes
    ensures written <==> outcome == WriteOutcome(true, |patch.bytes|)
    ensures written ==> file.content == bytes[..] == Write(old(bytes[..]), patch.offset, patch.bytes)
    ensures !written ==> bytes[..] == old(bytes[..])
    ensures !written ==> file.content == Arrived(old(bytes[..]), patch.offset, patch.bytes, outcome)
  {
    written := file.WriteAt(patch.offset, patch.bytes, outcome);
    if written {
      CopyBytes(bytes, patch.offset, patch.bytes);
      assert patch.bytes[..|patch.bytes|] == patch.bytes;
    }
  }

  /** A write that fails half-way has still changed nothing outside its patch. */
  lemma {:induction false} PartialWrite(was: Bytes, patches: seq<Patch>, k: nat, now: Bytes, outcome: WriteOutcome)
    requires k < |patches| && Placed(patches, |was|, k) && ChangedOnlyIn(patches, was, now)
    ensures ChangedOnlyIn(patches, was, Arrived(now, patches[k].offset, patches[k].bytes, outcome))
  {
    var after := Arrived(now, patches[k].offset, patches[k].bytes, outcome);
    forall p | 0 <= p < |was| && Untouched(patches, p) ensures after[p] == was[p] {
      assert !patches[k].Covers(p);
    }
  }
}
