/** What a successful seal leaves in the stream, and which nodes it reaches. */
module SealedStream {
  import opened Counting
  import opened ByteStreams
  import opened SegmentStream
  import opened RecordSealing

  predicate Apart(a: Descriptor, b: Descriptor) {
    a.End() <= b.valueOffset || b.End() <= a.valueOffset
  }

  /** No two descriptors name overlapping values. */
  ghost predicate WindowsApart(ds: seq<Descriptor>) {
    forall i, j :: 0 <= i < j < |ds| ==> Apart(ds[i], ds[j])
  }

  function Value(content: Bytes, d: Descriptor): Bytes
    requires d.End() <= |content|
  {
    content[d.valueOffset..d.End()]
  }

  /** The value of `d` has been replaced by its sealed form. */
  ghost predicate SealedHere(before: Bytes, after: Bytes, c: Canonical, prints: Prints, d: Descriptor) {
    d.End() <= |before| && |after| == |before| && Usable(d, prints, false) &&
    Value(after, d) == Window(c, prints, d, Value(before, d))
  }

  ghost predicate SameHere(before: Bytes, after: Bytes, d: Descriptor) {
    |after| == |before| && (d.End() <= |before| ==> Value(after, d) == Value(before, d))
  }

  lemma {:induction false} WriteMisses(content: Bytes, offset: nat, data: Bytes, d: Descriptor)
    requires offset + |data| <= |content|
    requires d.End() <= offset || offset + |data| <= d.valueOffset
    ensures SameHere(content, Write(content, offset, data), d)
  {
  }

  lemma {:induction false} WriteHits(content: Bytes, offset: nat, data: Bytes)
    requires offset + |data| <= |content|
    ensures Write(content, offset, data)[offset..offset + |data|] == data
  {
  }

  /** The first `k` values are sealed and the others are as they were. */
  ghost predicate SealedUpTo(before: Bytes, after: Bytes, c: Canonical, prints: Prints, k: nat)
    requires k <= |c.descriptors|
  {
    (forall i :: 0 <= i < k ==> SealedHere(before, after, c, prints, c.descriptors[i])) &&
    (forall i :: k <= i < |c.descriptors| ==> SameHere(before, after, c.descriptors[i]))
  }

  /** A write over one value leaves the others alone. */
  lemma {:induction false} OthersMissed(now: Bytes, ds: seq<Descriptor>, k: nat, window: Bytes, after: Bytes)
    requires WindowsApart(ds) && k < |ds| && ds[k].End() <= |now| && |window| == ds[k].valueBytes
    requires after == Write(now, ds[k].valueOffset, window)
    ensures forall i :: 0 <= i < |ds| && i != k ==> SameHere(now, after, ds[i])
  {
    forall i | 0 <= i < |ds| && i != k ensures SameHere(now, after, ds[i]) {
      assert Apart(ds[if i < k then i else k], ds[if i < k then k else i]);
      WriteMisses(now, ds[k].valueOffset, window, ds[i]);
    }
  }

  lemma {:induction false} SealNext(before: Bytes, now: Bytes, c: Canonical, prints: Prints, k: nat)
    requires WindowsApart(c.descriptors) && k < |c.descriptors|
    requires SealedUpTo(before, now, c, prints, k)
    requires Usable(c.descriptors[k], prints, false) && c.descriptors[k].End() <= |now|
    ensures SealedUpTo(before, SealedValue(now, c.descriptors[k].valueOffset, c, prints, c.descriptors[k]),
                       c, prints, k + 1)
  {
    var d := c.descriptors[k];
    var window := Window(c, prints, d, Value(now, d));
    var after := Write(now, d.valueOffset, window);
    assert SameHere(before, now, d);
    OthersMissed(now, c.descriptors, k, window, after);
    WriteHits(now, d.valueOffset, window);
    assert SealedHere(before, after, c, prints, d);
    forall i | 0 <= i < k ensures SealedHere(before, after, c, prints, c.descriptors[i]) {
      assert SealedHere(before, now, c, prints, c.descriptors[i]);
      assert SameHere(now, after, c.descriptors[i]);
    }
    forall i | k < i < |c.descriptors| ensures SameHere(before, after, c.descriptors[i]) {
      assert SameHere(before, now, c.descriptors[i]);
      assert SameHere(now, after, c.descriptors[i]);
    }
  }

  /** As long as nothing is refused, every value named so far holds its sealed form. */
  lemma {:induction false} FlatInPlace(run: seq<FlatState>, c: Canonical, prints: Prints, j: nat)
    requires FlatRun(run, c, prints) && j < |run| && !run[j].failed && WindowsApart(c.descriptors)
    ensures SealedUpTo(run[0].content, run[j].content, c, prints, j)
  {
    if j > 0 {
      assert FlatStep(run[j - 1], run[j], c, prints, c.descriptors[j - 1]);
      FlatInPlace(run, c, prints, j - 1);
      SealNext(run[0].content, run[j - 1].content, c, prints, j - 1);
    }
  }

  lemma {:induction false} SealedInPlace(records: seq<Bytes>, offsets: seq<nat>, c: Canonical, prints: Prints, k: nat)
    returns (t: Sealing)
    requires Indexed(records, offsets) && k <= |c.descriptors| && WindowsApart(c.descriptors)
    requires !SealFirst(records, offsets, c, prints, k).failed
    ensures t == SealFirst(records, offsets, c, prints, k) && Indexed(t.records, offsets)
    ensures SealedUpTo(Flat(records), Flat(t.records), c, prints, k)
  {
    var run;
    t, run := RunIsFlat(records, offsets, c, prints, k);
    FlatInPlace(run, c, prints, k);
  }

  /** The manifest value holds the two flags and the three roots; its other bytes are as before. */
  ghost predicate ManifestHolds(before: Bytes, after: Bytes, c: Canonical, d: Descriptor)
    requires d.End() <= |before| == |after| && d.valueBytes == VersionBytes
  {
    var was, now := Value(before, d), Value(after, d);
    now[10..12] == [Flag(c.semanticCertified), Flag(c.layoutPresent)] &&
    now[72..104] == c.semanticRoot && now[104..136] == c.layoutRoot && now[136..168] == c.captureRoot &&
    now[..10] == was[..10] && now[12..72] == was[12..72]
  }

  lemma {:induction false} WindowOfManifest(before: Bytes, after: Bytes, c: Canonical, prints: Prints, d: Descriptor)
    requires SealedHere(before, after, c, prints, d) && d.manifestVersion
    ensures ManifestHolds(before, after, c, d)
  {
    ManifestParts(Value(before, d), Value(after, d), c);
  }

  lemma {:induction false} ManifestParts(was: Bytes, now: Bytes, c: Canonical)
    requires |was| == VersionBytes && now == ManifestWindow(c, was)
    ensures now[10..12] == [Flag(c.semanticCertified), Flag(c.layoutPresent)]
    ensures now[72..104] == c.semanticRoot && now[104..136] == c.layoutRoot && now[136..168] == c.captureRoot
    ensures now[..10] == was[..10] && now[12..72] == was[12..72]
  {
    var head := was[..10] + [Flag(c.semanticCertified), Flag(c.layoutPresent)];
    var middle := head + was[12..72];
    assert now == middle + (c.semanticRoot + c.layoutRoot + c.captureRoot);
    assert now[..72] == middle && middle[..12] == head;
    assert now[12..72] == middle[12..72] == was[12..72];
  }

  // ----- counting -----

  /** The nodes that the first `k` descriptors seal. */
  function SealedIds(ds: seq<Descriptor>): seq<Bytes> {
    if ds == [] then []
    else
      var last := ds[|ds| - 1];
      SealedIds(ds[..|ds| - 1]) + if last.manifestVersion then [] else [last.nodeId]
  }

  lemma {:induction false} SealedIdsFrom(ds: seq<Descriptor>, id: Bytes)
    ensures id in SealedIds(ds) <==> exists i :: 0 <= i < |ds| && !ds[i].manifestVersion && ds[i].nodeId == id
  {
    if ds != [] {
      var before, last := ds[..|ds| - 1], ds[|ds| - 1];
      SealedIdsFrom(before, id);
      assert forall i :: 0 <= i < |before| ==> before[i] == ds[i];
      if !last.manifestVersion && last.nodeId == id {
        assert ds[|ds| - 1].nodeId == id;
      }
    }
  }

  ghost predicate ManifestOnlyAt(ds: seq<Descriptor>, m: nat) {
    m < |ds| && forall i :: 0 <= i < |ds| ==> (ds[i].manifestVersion <==> i == m)
  }

  ghost predicate OneManifest(ds: seq<Descriptor>) {
    exists m: nat :: ManifestOnlyAt(ds, m)
  }

  ghost predicate NoManifest(ds: seq<Descriptor>) {
    forall i :: 0 <= i < |ds| ==> !ds[i].manifestVersion
  }

  /** The run's counters are right for the descriptors it has passed. */
  ghost predicate Tally(ds: seq<Descriptor>, manifestSealed: bool, seals: nat, prints: Prints) {
    seals == |SealedIds(ds)| && (forall id | id in SealedIds(ds) :: id in prints) &&
    (manifestSealed ==> OneManifest(ds)) && (!manifestSealed ==> NoManifest(ds))
  }

  lemma {:induction false} TallyStep(ds: seq<Descriptor>, d: Descriptor, manifestSealed: bool, seals: nat,
                                     prints: Prints)
    requires Tally(ds, manifestSealed, seals, prints) && Usable(d, prints, manifestSealed)
    ensures Tally(ds + [d], manifestSealed || d.manifestVersion,
                  seals + if d.manifestVersion then 0 else 1, prints)
  {
    var more := ds + [d];
    assert more[..|ds|] == ds;
    if manifestSealed {
      var m: nat :| ManifestOnlyAt(ds, m);
      assert ManifestOnlyAt(more, m);
    } else if d.manifestVersion {
      assert ManifestOnlyAt(more, |ds|);
    }
  }

  lemma {:induction false} FlatCounts(run: seq<FlatState>, c: Canonical, prints: Prints, j: nat)
    requires FlatRun(run, c, prints) && j < |run| && !run[j].failed
    requires run[0].seals == 0 && !run[0].manifestSealed
    ensures Tally(c.descriptors[..j], run[j].manifestSealed, run[j].seals, prints)
  {
    if j > 0 {
      var before, last, s := c.descriptors[..j - 1], c.descriptors[j - 1], run[j - 1];
      assert FlatStep(s, run[j], c, prints, last);
      FlatCounts(run, c, prints, j - 1);
      TallyStep(before, last, s.manifestSealed, s.seals, prints);
      assert c.descriptors[..j] == before + [last];
    }
  }

  lemma {:induction false} SealCounts(records: seq<Bytes>, offsets: seq<nat>, c: Canonical, prints: Prints)
    returns (t: Sealing)
    requires Indexed(records, offsets) && !SealFirst(records, offsets, c, prints, |c.descriptors|).failed
    ensures t == SealFirst(records, offsets, c, prints, |c.descriptors|)
    ensures Tally(c.descriptors, t.manifestSealed, t.seals, prints)
  {
    var run;
    t, run := RunIsFlat(records, offsets, c, prints, |c.descriptors|);
    FlatCounts(run, c, prints, |c.descriptors|);
    assert c.descriptors[..|c.descriptors|] == c.descriptors;
  }

  // ----- the results -----

  ghost predicate NodeSealed(after: Bytes, ds: seq<Descriptor>, f: Fingerprint) {
    exists i :: 0 <= i < |ds| && FingerprintIn(after, ds[i], f)
  }

  /** `d` is a value of the node of `f`, and it holds its fingerprint. */
  predicate FingerprintIn(after: Bytes, d: Descriptor, f: Fingerprint) {
    !d.manifestVersion && d.nodeId == f.nodeId && d.End() <= |after| && Value(after, d) == f.fingerprint
  }

  ghost predicate Distinct(ids: seq<Bytes>) {
    forall i, j :: 0 <= i < j < |ids| ==> ids[i] != ids[j]
  }

  ghost predicate ManifestInPlace(before: Bytes, after: Bytes, c: Canonical, d: Descriptor) {
    |after| == |before| && d.End() <= |before| && d.valueBytes == VersionBytes && ManifestHolds(before, after, c, d)
  }

  /** A seal that succeeds puts the roots into the one manifest value. */
  lemma {:induction false} RootsInPlace(records: seq<Bytes>, offsets: seq<nat>, c: Canonical) returns (m: nat)
    requires Indexed(records, offsets) && Seals(records, offsets, c) && WindowsApart(c.descriptors)
    ensures ManifestOnlyAt(c.descriptors, m)
    ensures ManifestInPlace(Flat(records), Flat(FullySealed(records, offsets, c)), c, c.descriptors[m])
  {
    var prints := PrintMap(c.fingerprints);
    var t := SealedInPlace(records, offsets, c, prints, |c.descriptors|);
    var s := SealCounts(records, offsets, c, prints);
    m :| ManifestOnlyAt(c.descriptors, m);
    assert SealedHere(Flat(records), Flat(t.records), c, prints, c.descriptors[m]);
    WindowOfManifest(Flat(records), Flat(t.records), c, prints, c.descriptors[m]);
  }

  /** A seal that succeeds puts the fingerprint of its node into every other value. */
  lemma {:induction false} FingerprintsInPlace(records: seq<Bytes>, offsets: seq<nat>, c: Canonical, i: nat, k: nat)
    requires Indexed(records, offsets) && Seals(records, offsets, c) && WindowsApart(c.descriptors)
    requires i < |c.descriptors| && k < |c.fingerprints| && !c.descriptors[i].manifestVersion
    requires c.descriptors[i].nodeId == c.fingerprints[k].nodeId
    ensures FingerprintIn(Flat(FullySealed(records, offsets, c)), c.descriptors[i], c.fingerprints[k])
  {
    var prints := PrintMap(c.fingerprints);
    var t := SealedInPlace(records, offsets, c, prints, |c.descriptors|);
    PrintMapValue(c.fingerprints, k);
    assert SealedHere(Flat(records), Flat(t.records), c, prints, c.descriptors[i]);
  }

  /** As many seals as nodes reach every node exactly when none is sealed twice. */
  lemma {:induction false} CountsReachAll(ids: seq<Bytes>, prints: Prints)
    requires |ids| == |prints| && forall id | id in ids :: id in prints
    ensures Distinct(ids) <==> forall id | id in prints :: id in ids
  {
    var sealed := set id | id in ids;
    DistinctIffSize(ids);
    assert sealed <= prints.Keys;
    SubsetCount(sealed, prints.Keys);
    assert (forall id | id in prints :: id in ids) <==> sealed == prints.Keys;
  }

  lemma {:induction false} NodeIsSealed(records: seq<Bytes>, offsets: seq<nat>, c: Canonical, k: nat)
    requires Indexed(records, offsets) && Seals(records, offsets, c) && WindowsApart(c.descriptors)
    requires k < |c.fingerprints|
    ensures NodeSealed(Flat(FullySealed(records, offsets, c)), c.descriptors, c.fingerprints[k]) <==>
            c.fingerprints[k].nodeId in SealedIds(c.descriptors)
  {
    SealedIdsFrom(c.descriptors, c.fingerprints[k].nodeId);
    if c.fingerprints[k].nodeId in SealedIds(c.descriptors) {
      var i :| 0 <= i < |c.descriptors| && !c.descriptors[i].manifestVersion &&
               c.descriptors[i].nodeId == c.fingerprints[k].nodeId;
      FingerprintsInPlace(records, offsets, c, i, k);
    }
  }

  /**
   * A seal that succeeds has sealed every node exactly when no two fingerprint descriptors name the same node.
   * The final counts alone do not tell: a node named twice makes up for one that is never sealed.
   */
  lemma {:induction false} EveryNodeSealed(records: seq<Bytes>, offsets: seq<nat>, c: Canonical)
    requires Indexed(records, offsets) && Seals(records, offsets, c) && WindowsApart(c.descriptors)
    ensures AllNodesSealed(Flat(FullySealed(records, offsets, c)), c) <==> Distinct(SealedIds(c.descriptors))
  {
    var ids, prints := SealedIds(c.descriptors), PrintMap(c.fingerprints);
    var s := SealCounts(records, offsets, c, prints);
    PrintMapSize(c.fingerprints);
    CountsReachAll(ids, prints);
    NodesAreSealed(records, offsets, c, ids);
    forall id ensures id in prints <==> Named(c.fingerprints, id) {
      PrintMapNames(c.fingerprints, id);
    }
    NamedReach(c.fingerprints, ids, prints);
  }

  ghost predicate AllAmong(fs: seq<Fingerprint>, ids: seq<Bytes>) {
    forall k :: 0 <= k < |fs| ==> fs[k].nodeId in ids
  }

  lemma {:induction false} NodesAreSealed(records: seq<Bytes>, offsets: seq<nat>, c: Canonical, ids: seq<Bytes>)
    requires Indexed(records, offsets) && Seals(records, offsets, c) && WindowsApart(c.descriptors)
    requires ids == SealedIds(c.descriptors)
    ensures AllNodesSealed(Flat(FullySealed(records, offsets, c)), c) <==> AllAmong(c.fingerprints, ids)
  {
    var after := Flat(FullySealed(records, offsets, c));
    forall k | 0 <= k < |c.fingerprints|
      ensures NodeSealed(after, c.descriptors, c.fingerprints[k]) <==> c.fingerprints[k].nodeId in ids
    {
      NodeIsSealed(records, offsets, c, k);
    }
  }

  ghost predicate AllNodesSealed(after: Bytes, c: Canonical) {
    forall k :: 0 <= k < |c.fingerprints| ==> NodeSealed(after, c.descriptors, c.fingerprints[k])
  }

  lemma {:induction false} NamedReach(fs: seq<Fingerprint>, ids: seq<Bytes>, prints: Prints)
    requires forall id :: id in prints <==> Named(fs, id)
    ensures (forall id | id in prints :: id in ids) <==> AllAmong(fs, ids)
  {
    forall k | 0 <= k < |fs| ensures fs[k].nodeId in prints {
      assert Named(fs, fs[k].nodeId);
    }
  }

  // ----- a node that success misses -----

  lemma {:induction false} SmallNumber(b: Bytes)
    requires b != [] && forall i :: 0 < i < |b| ==> b[i] == 0
    ensures Number(b) == b[0] as nat
  {
    if |b| > 1 {
      SmallNumber(b[1..]);
    }
  }

  function FieldHeader(tag: Byte, scalar: Byte, size: Byte): Bytes {
    [tag, 0, 0, 0, scalar, 0, 0, 0, 0, 0, 0, 0, 0, 0, 0, 0, size, 0, 0, 0, 0, 0, 0, 0]
  }

  /** A header matches exactly the descriptors that name its tag, its scalar and its size. */
  lemma {:induction false} HeaderDecides(tag: Byte, scalar: Byte, size: Byte, value: Bytes, start: nat, d: Descriptor)
    requires size as nat == |value| && d.valueOffset == start + HeaderBytes
    ensures HeaderMatches(FieldHeader(tag, scalar, size) + value, start, d) <==>
            d.fieldTag == tag as nat && d.scalar == scalar as nat && d.valueBytes == size as nat
  {
    var header := FieldHeader(tag, scalar, size);
    assert (header + value)[0..24] == header;
    SmallNumber(header[0..2]);
    SmallNumber(header[4..6]);
    SmallNumber(header[16..24]);
  }

  function TwiceNamed(id: Bytes, other: Bytes, digest: Digest): Canonical {
    Canonical(true, true, true, digest, digest, digest,
              [Descriptor(1, 11, 24, 168, true, []), Descriptor(8, 10, 216, 32, false, id),
               Descriptor(8, 10, 272, 32, false, id)],
              [Fingerprint(id, digest), Fingerprint(other, digest)])
  }

  function ThreeRecords(version: Bytes, stale: Bytes): seq<Bytes> {
    [FieldHeader(1, 11, 168) + version, FieldHeader(8, 10, 32) + stale, FieldHeader(8, 10, 32) + stale]
  }

  /** One descriptor passes, and only its own record changes. */
  lemma {:induction false} OneMore(s: Sealing, offsets: seq<nat>, c: Canonical, prints: Prints, d: Descriptor, at: nat)
    returns (t: Sealing)
    requires |s.records| == |offsets| && at < |offsets| && !s.failed && Usable(d, prints, s.manifestSealed)
    requires UpperBound(offsets, d.valueOffset) == at + 1 && HeaderMatches(s.records[at], offsets[at], d)
    ensures t == SealOne(s, offsets, c, prints, d) && !t.failed
    ensures t.manifestSealed == (s.manifestSealed || d.manifestVersion)
    ensures t.seals == s.seals + if d.manifestVersion then 0 else 1
    ensures forall j :: 0 <= j < |offsets| && j != at ==> t.records[j] == s.records[j]
  {
    t := SealOne(s, offsets, c, prints, d);
  }

  lemma {:induction false} ThreeOffsets(records: seq<Bytes>)
    requires |records| == 3 && |records[0]| == 192 && |records[1]| == |records[2]| == 56
    ensures Indexed(records, [0, 192, 248])
    ensures UpperBound([0, 192, 248], 24) == 1 && UpperBound([0, 192, 248], 216) == 2
    ensures UpperBound([0, 192, 248], 272) == 3
  {
    StartStep(records, 0);
    StartStep(records, 1);
    assert records[..0] == [];
    var all: seq<nat>, two: seq<nat>, one: seq<nat> := [0, 192, 248], [0, 192], [0];
    assert all[..2] == two && two[..1] == one;
  }

  lemma {:induction false} ThreeSteps(records: seq<Bytes>, offsets: seq<nat>, c: Canonical, prints: Prints,
                                      s1: Sealing, s2: Sealing, s3: Sealing)
    requires |records| == |offsets| && |c.descriptors| == 3
    requires s1 == SealOne(Sealing(records, false, 0, false), offsets, c, prints, c.descriptors[0])
    requires s2 == SealOne(s1, offsets, c, prints, c.descriptors[1])
    requires s3 == SealOne(s2, offsets, c, prints, c.descriptors[2])
    ensures SealFirst(records, offsets, c, prints, 3) == s3
  {
    assert s1 == SealFirst(records, offsets, c, prints, 1);
    assert s2 == SealFirst(records, offsets, c, prints, 2);
  }

  /** The three descriptors pass in turn. */
  lemma {:induction false} ThreePass(records: seq<Bytes>, offsets: seq<nat>, c: Canonical, prints: Prints)
    returns (s3: Sealing)
    requires |records| == |offsets| == |c.descriptors| == 3
    requires forall i :: 0 <= i < 3 ==> UpperBound(offsets, c.descriptors[i].valueOffset) == i + 1
    requires HeaderMatches(records[0], offsets[0], c.descriptors[0])
    requires HeaderMatches(records[1], offsets[1], c.descriptors[1])
    requires HeaderMatches(records[2], offsets[2], c.descriptors[2])
    requires ManifestShape(c.descriptors[0])
    requires FingerprintShape(c.descriptors[1]) && c.descriptors[1].nodeId in prints
    requires FingerprintShape(c.descriptors[2]) && c.descriptors[2].nodeId in prints
    ensures s3 == SealFirst(records, offsets, c, prints, 3)
    ensures !s3.failed && s3.manifestSealed && s3.seals == 2
  {
    var s1 := OneMore(Sealing(records, false, 0, false), offsets, c, prints, c.descriptors[0], 0);
    var s2 := OneMore(s1, offsets, c, prints, c.descriptors[1], 1);
    s3 := OneMore(s2, offsets, c, prints, c.descriptors[2], 2);
    ThreeSteps(records, offsets, c, prints, s1, s2, s3);
  }

  ghost predicate ThreeReady(records: seq<Bytes>, ds: seq<Descriptor>) {
    var offsets := [0, 192, 248];
    |records| == 3 == |ds| && Indexed(records, offsets) &&
    (forall i :: 0 <= i < 3 ==> UpperBound(offsets, ds[i].valueOffset) == i + 1) &&
    HeaderMatches(records[0], 0, ds[0]) && HeaderMatches(records[1], 192, ds[1]) &&
    HeaderMatches(records[2], 248, ds[2])
  }

  lemma {:induction false} HeadersAgree(version: Bytes, stale: Bytes, id: Bytes, other: Bytes, digest: Digest)
    requires |version| == 168 && |stale| == 32
    ensures var records, ds := ThreeRecords(version, stale), TwiceNamed(id, other, digest).descriptors;
      HeaderMatches(records[0], 0, ds[0]) && HeaderMatches(records[1], 192, ds[1]) &&
      HeaderMatches(records[2], 248, ds[2])
  {
    var ds := TwiceNamed(id, other, digest).descriptors;
    HeaderDecides(1, 11, 168, version, 0, ds[0]);
    HeaderDecides(8, 10, 32, stale, 192, ds[1]);
    HeaderDecides(8, 10, 32, stale, 248, ds[2]);
  }

  lemma {:induction false} ThreeHeaders(version: Bytes, stale: Bytes, id: Bytes, other: Bytes, digest: Digest)
    requires |version| == 168 && |stale| == 32
    ensures ThreeReady(ThreeRecords(version, stale), TwiceNamed(id, other, digest).descriptors)
  {
    HeadersAgree(version, stale, id, other, digest);
    ThreeOffsets(ThreeRecords(version, stale));
  }

  lemma {:induction false} ThreeSeals(records: seq<Bytes>, c: Canonical, id: Bytes, other: Bytes, digest: Digest)
    requires id != other && c == TwiceNamed(id, other, digest) && ThreeReady(records, c.descriptors)
    ensures Seals(records, [0, 192, 248], c)
  {
    PrintMapValue(c.fingerprints, 0);
    var s3 := ThreePass(records, [0, 192, 248], c, PrintMap(c.fingerprints));
  }

  /** Three records, two nodes, one of them named twice: the seal succeeds and the other node keeps its old value. */
  lemma {:induction false} SuccessCanMissANode(version: Bytes, stale: Bytes, id: Bytes, other: Bytes, digest: Digest)
    requires |version| == 168 && |stale| == 32 && id != other
    ensures var c, records := TwiceNamed(id, other, digest), ThreeRecords(version, stale);
      Seals(records, [0, 192, 248], c) &&
      !AllNodesSealed(Flat(FullySealed(records, [0, 192, 248], c)), c)
  {
    var c, records := TwiceNamed(id, other, digest), ThreeRecords(version, stale);
    ThreeHeaders(version, stale, id, other, digest);
    ThreeSeals(records, c, id, other, digest);
    EveryNodeSealed(records, [0, 192, 248], c);
    var d0, d1, d2 := c.descriptors[0], c.descriptors[1], c.descriptors[2];
    assert c.descriptors[..2] == [d0, d1] && [d0, d1][..1] == [d0] && [d0][..0] == [];
    assert SealedIds([d0]) == [];
    assert SealedIds([d0, d1]) == [id];
    assert SealedIds(c.descriptors)[0] == SealedIds(c.descriptors)[1] == id;
  }
}
