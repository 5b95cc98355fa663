/** Flat and segmented byte content, and writing a window of it. */
module ByteStreams {

  newtype Byte = x: int | 0 <= x < 256

  type Bytes = seq<Byte>

  /** `content` with `data` written over it at `offset`. */
  function Write(content: Bytes, offset: nat, data: Bytes): (written: Bytes)
    requires offset + |data| <= |content|
    ensures |written| == |content|
    ensures forall i :: 0 <= i < |content| ==>
      written[i] == if offset <= i < offset + |data| then data[i - offset] else content[i]
  {
    content[..offset] + data + content[offset + |data|..]
  }

  /** The records laid end to end. */
  function Flat(records: seq<Bytes>): Bytes {
    if records == [] then [] else Flat(records[..|records| - 1]) + records[|records| - 1]
  }

  /** Where record `i` starts in the flat stream. */
  function StartOf(records: seq<Bytes>, i: nat): nat
    requires i <= |records|
  {
    |Flat(records[..i])|
  }

  lemma {:induction false} StartStep(records: seq<Bytes>, i: nat)
    requires i < |records|
    ensures StartOf(records, i + 1) == StartOf(records, i) + |records[i]|
  {
    assert records[..i + 1][..i] == records[..i];
  }

  lemma {:induction false} StartMonotone(records: seq<Bytes>, i: nat, j: nat)
    requires i <= j <= |records|
    ensures StartOf(records, i) <= StartOf(records, j)
    decreases j - i
  {
    if i < j {
      StartMonotone(records, i, j - 1);
      StartStep(records, j - 1);
    }
  }

  lemma {:induction false} FlatWhole(records: seq<Bytes>)
    ensures StartOf(records, |records|) == |Flat(records)|
  {
    assert records[..|records|] == records;
  }

  lemma {:induction false} FlatConcat(a: seq<Bytes>, b: seq<Bytes>)
    ensures Flat(a + b) == Flat(a) + Flat(b)
    decreases |b|
  {
    if b == [] {
      assert a + b == a;
    } else {
      var n := |b| - 1;
      FlatConcat(a, b[..n]);
      assert (a + b)[..|a + b| - 1] == a + b[..n];
      assert Flat(a) + (Flat(b[..n]) + b[n]) == (Flat(a) + Flat(b[..n])) + b[n];
    }
  }

  /** A record is the slice of the flat stream between its own start and the next. */
  lemma {:induction false} RecordIsSlice(records: seq<Bytes>, i: nat)
    requires i < |records|
    ensures StartOf(records, i) + |records[i]| <= |Flat(records)|
    ensures Flat(records)[StartOf(records, i)..StartOf(records, i) + |records[i]|] == records[i]
  {
    var before, after := records[..i], records[i + 1..];
    assert records == before + [records[i]] + after;
    FlatConcat(before + [records[i]], after);
    FlatConcat(before, [records[i]]);
    assert Flat([records[i]]) == records[i] by { assert [records[i]][..0] == []; }
  }

  /** Writing into a record is writing into the flat stream, and no record moves. */
  lemma {:induction false} WriteInRecord(records: seq<Bytes>, i: nat, within: nat, data: Bytes)
    requires i < |records| && within + |data| <= |records[i]|
    ensures StartOf(records, i) + within + |data| <= |Flat(records)|
    ensures Flat(records[i := Write(records[i], within, data)]) ==
            Write(Flat(records), StartOf(records, i) + within, data)
  {
    var before, record, after := records[..i], records[i], records[i + 1..];
    var written := Write(record, within, data);
    assert records == before + ([record] + after);
    assert records[i := written] == before + ([written] + after);
    FlatAround(before, record, after);
    FlatAround(before, written, after);
    WriteAround(Flat(before), record, Flat(after), within, data);
  }

  lemma {:induction false} WriteAround(before: Bytes, record: Bytes, after: Bytes, within: nat, data: Bytes)
    requires within + |data| <= |record|
    ensures before + Write(record, within, data) + after == Write(before + record + after, |before| + within, data)
  {
  }

  /** After a write, what precedes it is followed by the data, and what is behind it is untouched. */
  lemma {:induction false} WriteExtends(content: Bytes, offset: nat, data: Bytes, behind: nat)
    requires offset + |data| <= behind <= |content|
    ensures Write(content, offset, data)[..offset + |data|] == content[..offset] + data
    ensures Write(content, offset, data)[behind..] == content[behind..]
  {
  }

  lemma {:induction false} FlatAround(before: seq<Bytes>, record: Bytes, after: seq<Bytes>)
    ensures Flat(before + ([record] + after)) == Flat(before) + record + Flat(after)
  {
    FlatConcat(before, [record] + after);
    FlatConcat([record], after);
    assert Flat([record]) == record by { assert [record][..0] == []; }
    assert Flat(before) + (record + Flat(after)) == Flat(before) + record + Flat(after);
  }

  ghost predicate SameBoundaries(a: seq<Bytes>, b: seq<Bytes>) {
    |a| == |b| && forall i :: 0 <= i < |a| ==> |a[i]| == |b[i]|
  }

  lemma {:induction false} SameStarts(a: seq<Bytes>, b: seq<Bytes>, i: nat)
    requires SameBoundaries(a, b) && i <= |a|
    ensures StartOf(a, i) == StartOf(b, i)
    decreases i
  {
    if i > 0 {
      SameStarts(a, b, i - 1);
      StartStep(a, i - 1);
      StartStep(b, i - 1);
    }
  }

  /** Copies `data` into a buffer. */
  method CopyBytes(buffer: array<Byte>, start: nat, data: Bytes)
    requires start + |data| <= buffer.Length
    modifies buffer
    ensures buffer[..] == Write(old(buffer[..]), start, data)
  {
    for i := 0 to |data|
      invariant buffer[..] == Write(old(buffer[..]), start, data[..i])
    {
      buffer[start + i] := data[i];
    }
    assert data[..|data|] == data;
  }
}
