/** The segmented record stream between the emitting thread and the canonicalizing thread. */
module SegmentStream {
  import opened Options
  import opened ByteStreams

  /** The number of entries of an increasing list that are at most `x`. */
  function UpperBound(offsets: seq<nat>, x: nat): (n: nat)
    ensures n <= |offsets|
  {
    if offsets == [] then 0
    else if offsets[|offsets| - 1] <= x then |offsets|
    else UpperBound(offsets[..|offsets| - 1], x)
  }

  lemma {:induction false} UpperBoundIs(offsets: seq<nat>, x: nat)
    requires forall i, j :: 0 <= i < j < |offsets| ==> offsets[i] < offsets[j]
    ensures forall i :: 0 <= i < |offsets| ==> (offsets[i] <= x <==> i < UpperBound(offsets, x))
  {
    if offsets != [] && offsets[|offsets| - 1] > x {
      UpperBoundIs(offsets[..|offsets| - 1], x);
      assert forall i :: 0 <= i < |offsets| - 1 ==> offsets[i] == offsets[..|offsets| - 1][i];
    }
  }

  /** What the mutex protects. */
  datatype State = State(records: seq<Bytes>, complete: bool) {
    function Content(): Bytes { Flat(records) }

    /** A reader waits until its range has arrived or nothing more will. */
    predicate Ready(offset: nat, requested: nat) {
      complete || offset + requested <= |Content()|
    }

    /** The answer to a read: the slice, or a refusal when the stream ends before it. */
    function ReadAnswer(offset: nat, requested: nat): Option<Bytes> {
      if offset + requested <= |Content()| then Some(Content()[offset..offset + requested]) else None
    }
  }

  class SegmentedRecords {
    var records: seq<Bytes>
    var offsets: seq<nat>
    var length: nat
    var complete: bool

    ghost predicate Valid()
      reads this
    {
      Indexed(records, offsets) && length == |Flat(records)|
    }

    /** Valid, or with one offset too many, which no record has. */
    ghost predicate Readable()
      reads this
    {
      Addressable(records, offsets) && length == |Flat(records)|
    }

    ghost function Abstract(): State
      reads this
    {
      State(records, complete)
    }

    constructor ()
      ensures Valid() && Abstract() == State([], false)
    {
      records, offsets, length, complete := [], [], 0, false;
    }

    /**
     * The producer's callback. Empty records are refused, and so are records that cannot be stored: `offsetRoom` and
     * `recordRoom` say which of the two allocations succeed. A refusal leaves the content alone, and the stream
     * readable; it leaves it valid exactly if the offset was not appended before the record failed. The producer
     * stops at its first refusal.
     */
    method CollectRecord(record: Bytes, offsetRoom: bool, recordRoom: bool) returns (ok: bool)
      requires Valid()
      modifies this
      ensures ok <==> record != [] && offsetRoom && recordRoom
      ensures Abstract() == if ok then State(old(records) + [record], old(complete)) else old(Abstract())
      ensures Valid() <==> record == [] || !offsetRoom || recordRoom
      ensures Readable()
    {
      ValidIsAddressable(records, offsets);
      if record == [] || !offsetRoom {
        return false;
      }
      offsets := offsets + [length];
      if !recordRoom {
        assert offsets[..|records|] == old(offsets);
        return false;
      }
      records := records + [record];
      length := length + |record|;
      AppendedStarts(old(records), record);
      ValidIsAddressable(records, offsets);
      ok := true;
    }

    method CompleteSegments()
      requires Readable()
      modifies this`complete
      ensures Readable() && (Valid() <==> old(Valid())) && Abstract() == State(old(records), true)
    {
      complete := true;
    }

    /** The consumer's read, from the moment it stops waiting: a copy that runs across record boundaries. */
    method ReadSegments(offset: nat, requested: nat, buffer: array<Byte>) returns (ok: bool, actual: nat)
      requires Readable() && Abstract().Ready(offset, requested) && requested <= buffer.Length
      modifies buffer
      ensures ok <==> Abstract().ReadAnswer(offset, requested).Some?
      ensures ok ==> actual == requested && Some(buffer[..requested]) == Abstract().ReadAnswer(offset, requested)
      ensures buffer[requested..] == old(buffer[requested..])
    {
      if offset > length || requested > length - offset {
        return false, 0;
      }
      if requested > 0 {
        CopySlice(records, offsets, offset, requested, buffer);
      }
      assert requested == 0 ==> buffer[..0] == Flat(records)[offset..offset];
      ok, actual := true, requested;
    }

    /** The consumer's look at a whole record that starts at `offset`, if it has arrived. */
    method ViewSegmentRecord(offset: nat) returns (record: Option<Bytes>)
      requires Readable()
      ensures record == ViewAnswer(Abstract(), offset)
    {
      var index := FindStart(records, offsets, offset);
      if index.None? {
        return None;
      }
      record := Some(records[index.value]);
    }
  }

  method FindStart(records: seq<Bytes>, offsets: seq<nat>, offset: nat) returns (index: Option<nat>)
    requires Addressable(records, offsets)
    ensures index.Some? ==> StartsAt(records, index.value, offset)
    ensures index.Some? ==> forall i: nat :: StartsAt(records, i, offset) ==> i == index.value
    ensures index.None? ==> forall i: nat :: !StartsAt(records, i, offset)
  {
    OffsetsIncrease(records, offsets);
    LowerBoundIs(offsets, offset);
    var n := LowerBound(offsets, offset);
    index := if n == |offsets| || offsets[n] != offset || n >= |records| then None else Some(n);
    if n < |records| {
      OffsetOf(records, offsets, n);
    }
    forall i: nat | StartsAt(records, i, offset) ensures i == n && offsets[n] == offset {
      OffsetOf(records, offsets, i);
    }
  }

  /** The offsets of the records, and at most the end of the stream behind them. */
  ghost predicate Addressable(records: seq<Bytes>, offsets: seq<nat>) {
    |records| <= |offsets| <= |records| + 1 && Indexed(records, offsets[..|records|]) &&
    (|offsets| > |records| ==> offsets[|records|] == |Flat(records)|)
  }

  lemma {:induction false} ValidIsAddressable(records: seq<Bytes>, offsets: seq<nat>)
    ensures Indexed(records, offsets) <==> Addressable(records, offsets) && |offsets| == |records|
  {
    if |offsets| == |records| {
      assert offsets[..|records|] == offsets;
    }
  }

  lemma {:induction false} OffsetOf(records: seq<Bytes>, offsets: seq<nat>, i: nat)
    requires Addressable(records, offsets) && i < |records|
    ensures offsets[i] == StartOf(records, i)
  {
    assert offsets[..|records|][i] == offsets[i];
  }

  lemma {:induction false} OffsetsIncrease(records: seq<Bytes>, offsets: seq<nat>)
    requires Addressable(records, offsets)
    ensures forall i, j :: 0 <= i < j < |offsets| ==> offsets[i] < offsets[j]
  {
    StartsIncrease(records, offsets[..|records|]);
    forall i, j | 0 <= i < j < |offsets| ensures offsets[i] < offsets[j] {
      if j < |records| {
        assert offsets[..|records|][i] < offsets[..|records|][j];
      } else {
        OffsetOf(records, offsets, i);
        RecordIsSlice(records, i);
      }
    }
  }

  /** The offsets are where the records start, and no record is empty. */
  ghost predicate Indexed(records: seq<Bytes>, offsets: seq<nat>) {
    |offsets| == |records| && (forall i :: 0 <= i < |records| ==> records[i] != []) &&
    forall i {:trigger offsets[i]} :: 0 <= i < |records| ==> offsets[i] == StartOf(records, i)
  }

  ghost predicate StartsAt(records: seq<Bytes>, i: nat, offset: nat) {
    i < |records| && StartOf(records, i) == offset
  }

  /** The record that starts at `offset`, if there is one. */
  ghost function ViewAnswer(s: State, offset: nat): Option<Bytes> {
    if exists i: nat :: StartsAt(s.records, i, offset) then
      var i: nat :| StartsAt(s.records, i, offset);
      Some(s.records[i])
    else None
  }

  /** The number of entries of an increasing list that are below `x`. */
  function LowerBound(offsets: seq<nat>, x: nat): (n: nat)
    ensures n <= |offsets|
  {
    if offsets == [] then 0
    else if offsets[|offsets| - 1] < x then |offsets|
    else LowerBound(offsets[..|offsets| - 1], x)
  }

  lemma {:induction false} LowerBoundIs(offsets: seq<nat>, x: nat)
    requires forall i, j :: 0 <= i < j < |offsets| ==> offsets[i] < offsets[j]
    ensures forall i :: 0 <= i < |offsets| ==> (offsets[i] < x <==> i < LowerBound(offsets, x))
  {
    if offsets != [] && offsets[|offsets| - 1] >= x {
      LowerBoundIs(offsets[..|offsets| - 1], x);
      assert forall i :: 0 <= i < |offsets| - 1 ==> offsets[i] == offsets[..|offsets| - 1][i];
    }
  }

  /** Records are never empty, so their starts strictly increase. */
  lemma {:induction false} StartsIncrease(records: seq<Bytes>, offsets: seq<nat>)
    requires Indexed(records, offsets)
    ensures forall i, j :: 0 <= i < j < |offsets| ==> offsets[i] < offsets[j]
  {
    forall i, j | 0 <= i < j < |offsets| ensures offsets[i] < offsets[j] {
      StartStep(records, i);
      StartMonotone(records, i + 1, j);
    }
  }

  lemma {:induction false} AppendedStarts(records: seq<Bytes>, record: Bytes)
    ensures Flat(records + [record]) == Flat(records) + record
    ensures forall i :: 0 <= i <= |records| ==> StartOf(records + [record], i) == StartOf(records, i)
    ensures StartOf(records + [record], |records|) == |Flat(records)|
  {
    var more := records + [record];
    assert more[..|records|] == records;
    forall i | 0 <= i <= |records| ensures StartOf(more, i) == StartOf(records, i) {
      assert more[..i] == records[..i];
    }
    FlatWhole(records);
  }

  // ----- the copy loop -----

  /** Record `at` holds the byte at `position`. */
  ghost predicate Located(records: seq<Bytes>, at: nat, position: nat) {
    at < |records| && StartOf(records, at) <= position < StartOf(records, at) + |records[at]|
  }

  method FirstRecord(records: seq<Bytes>, offsets: seq<nat>, offset: nat) returns (at: nat)
    requires Addressable(records, offsets) && offset < |Flat(records)|
    ensures Located(records, at, offset)
  {
    var n := UpperBound(offsets, offset);
    at := if n == 0 then 0 else n - 1;
    OffsetsIncrease(records, offsets);
    UpperBoundIs(offsets, offset);
    BeforeEnd(records, offsets, offset, n);
    StartStep(records, at);
    if at + 1 < |records| {
      OffsetOf(records, offsets, at + 1);
    } else {
      FlatWhole(records);
    }
  }

  /** The bound behind an offset in the stream is behind the start of a record. */
  lemma {:induction false} BeforeEnd(records: seq<Bytes>, offsets: seq<nat>, offset: nat, n: nat)
    requires Addressable(records, offsets) && offset < |Flat(records)| && n <= |offsets|
    requires forall i :: 0 <= i < |offsets| ==> (offsets[i] <= offset <==> i < n)
    ensures 1 <= n <= |records| && StartOf(records, n - 1) <= offset
  {
    assert records[..0] == [] && records != [];
    OffsetOf(records, offsets, 0);
    OffsetOf(records, offsets, n - 1);
  }

  lemma {:induction false} NextRecord(records: seq<Bytes>, at: nat, position: nat)
    requires at < |records| && position == StartOf(records, at) + |records[at]| && position < |Flat(records)|
    requires forall i :: 0 <= i < |records| ==> records[i] != []
    ensures Located(records, at + 1, position)
  {
    StartStep(records, at);
    FlatWhole(records);
    if at + 1 < |records| {
      StartStep(records, at + 1);
    }
  }

  /** The part of a record from `position` on is the part of the flat stream from there on. */
  lemma {:induction false} SliceOfRecord(records: seq<Bytes>, at: nat, position: nat, count: nat)
    requires Located(records, at, position) && position - StartOf(records, at) + count <= |records[at]|
    ensures position + count <= |Flat(records)|
    ensures var within := position - StartOf(records, at);
      Flat(records)[position..position + count] == records[at][within..within + count]
  {
    RecordIsSlice(records, at);
    var start := StartOf(records, at);
    var within := position - start;
    SliceOfSlice(Flat(records), start, |records[at]|, within, count);
  }

  lemma {:induction false} SliceOfSlice(content: Bytes, start: nat, length: nat, within: nat, count: nat)
    requires start + length <= |content| && within + count <= length
    ensures content[start..start + length][within..within + count] == content[start + within..start + within + count]
  {
    var slice := content[start..start + length];
    var a, b := slice[within..within + count], content[start + within..start + within + count];
    forall i | 0 <= i < count ensures a[i] == b[i] {
      assert a[i] == slice[within + i] == content[start + (within + i)];
    }
  }

  /** Copies what one record contributes to a read. */
  method CopyFromRecord(records: seq<Bytes>, offsets: seq<nat>, at: nat, buffer: array<Byte>,
                        offset: nat, actual: nat, requested: nat)
    returns (count: nat)
    requires Addressable(records, offsets) && actual < requested <= buffer.Length
    requires offset + requested <= |Flat(records)| && Located(records, at, offset + actual)
    requires buffer[..actual] == Flat(records)[offset..offset + actual]
    modifies buffer
    ensures 0 < count <= requested - actual
    ensures buffer[..actual + count] == Flat(records)[offset..offset + actual + count]
    ensures buffer[requested..] == old(buffer[requested..])
    ensures actual + count < requested ==> Located(records, at + 1, offset + actual + count)
  {
    OffsetOf(records, offsets, at);
    var within := offset + actual - offsets[at];
    var left := |records[at]| - within;
    count := if requested - actual < left then requested - actual else left;
    SliceOfRecord(records, at, offset + actual, count);
    WriteExtends(buffer[..], actual, records[at][within..within + count], requested);
    CopyBytes(buffer, actual, records[at][within..within + count]);
    assert Flat(records)[offset..offset + actual + count] ==
           Flat(records)[offset..offset + actual] + Flat(records)[offset + actual..offset + actual + count];
    if actual + count < requested {
      NextRecord(records, at, offset + actual + count);
    }
  }

  /** Copies a range across however many records it spans. */
  method CopySlice(records: seq<Bytes>, offsets: seq<nat>, offset: nat, requested: nat, buffer: array<Byte>)
    requires Addressable(records, offsets)
    requires 0 < requested <= buffer.Length && offset + requested <= |Flat(records)|
    modifies buffer
    ensures buffer[..requested] == Flat(records)[offset..offset + requested]
    ensures buffer[requested..] == old(buffer[requested..])
  {
    var at := FirstRecord(records, offsets, offset);
    var actual := 0;
    while actual != requested && at < |records|
      invariant actual <= requested
      invariant buffer[..actual] == Flat(records)[offset..offset + actual]
      invariant buffer[requested..] == old(buffer[requested..])
      invariant actual != requested ==> Located(records, at, offset + actual)
      decreases |records| - at
    {
      var count := CopyFromRecord(records, offsets, at, buffer, offset, actual, requested);
      actual := actual + count;
      at := at + 1;
    }
  }
}
