/** Sealing the collected records in place with the roots and fingerprints of the canonical pass. */
module RecordSealing {
  import opened ByteStreams
  import opened SegmentStream

  type Digest = d: Bytes | |d| == 32 witness seq(32, _ => 0)

  datatype Scalar = Struct | Sha256 | Other(code: nat)

  function ScalarCode(s: Scalar): nat {
    match s
    case Struct => 11
    case Sha256 => 10
    case Other(code) => code
  }

  const VersionBytes := 168
  const HeaderBytes := 24

  datatype Descriptor = Descriptor(fieldTag: nat, scalar: nat, valueOffset: nat, valueBytes: nat,
                                   manifestVersion: bool, nodeId: Bytes) {
    function End(): nat { valueOffset + valueBytes }
  }

  datatype Fingerprint = Fingerprint(nodeId: Bytes, fingerprint: Digest)

  datatype Canonical = Canonical(
    rootsPresent: bool, semanticCertified: bool, layoutPresent: bool,
    semanticRoot: Digest, layoutRoot: Digest, captureRoot: Digest,
    descriptors: seq<Descriptor>, fingerprints: seq<Fingerprint>)

  /** A little-endian number. */
  function Number(b: Bytes): nat {
    if b == [] then 0 else b[0] as nat + 256 * Number(b[1..])
  }

  function Flag(b: bool): Byte {
    if b then 1 else 0
  }

  // ----- one descriptor -----

  /** The value lies in a record behind a 24-byte field header, and the header announces exactly this value. */
  predicate HeaderMatches(record: Bytes, start: nat, d: Descriptor) {
    start + HeaderBytes <= d.valueOffset && d.End() <= start + |record| &&
    var header := record[d.valueOffset - start - HeaderBytes..d.valueOffset - start];
    Number(header[0..2]) == d.fieldTag && Number(header[4..6]) == d.scalar &&
    Number(header[16..24]) == d.valueBytes
  }

  /** The number of records that start at or before an offset. */
  function RecordBefore(offsets: seq<nat>, offset: nat): (n: nat)
    ensures n <= |offsets|
  {
    UpperBound(offsets, offset)
  }

  predicate Addressed(records: seq<Bytes>, offsets: seq<nat>, d: Descriptor)
    requires |offsets| == |records|
  {
    var n := RecordBefore(offsets, d.valueOffset);
    n != 0 && HeaderMatches(records[n - 1], offsets[n - 1], d)
  }

  /** The record that holds the value of an addressed descriptor. */
  function PlaceOf(records: seq<Bytes>, offsets: seq<nat>, d: Descriptor): (at: nat)
    requires |offsets| == |records| && Addressed(records, offsets, d)
    ensures at < |records| && offsets[at] <= d.valueOffset
    ensures d.valueOffset - offsets[at] + d.valueBytes <= |records[at]|
  {
    RecordBefore(offsets, d.valueOffset) - 1
  }

  predicate ManifestShape(d: Descriptor) {
    d.manifestVersion && d.fieldTag == 1 && d.scalar == ScalarCode(Struct) && d.valueBytes == VersionBytes
  }

  predicate FingerprintShape(d: Descriptor) {
    !d.manifestVersion && d.fieldTag == 8 && d.scalar == ScalarCode(Sha256) && d.valueBytes == 32
  }

  type Prints = map<Bytes, Digest>

  predicate Usable(d: Descriptor, prints: Prints, manifestSealed: bool) {
    (ManifestShape(d) && !manifestSealed) || (FingerprintShape(d) && d.nodeId in prints)
  }

  /** The manifest version value: two flags and three roots are replaced, the rest stays. */
  function ManifestWindow(c: Canonical, w: Bytes): (sealed: Bytes)
    requires |w| == VersionBytes
    ensures |sealed| == VersionBytes
  {
    w[..10] + [Flag(c.semanticCertified), Flag(c.layoutPresent)] + w[12..72] +
    c.semanticRoot + c.layoutRoot + c.captureRoot
  }

  function Window(c: Canonical, prints: Prints, d: Descriptor, w: Bytes): (sealed: Bytes)
    requires Usable(d, prints, false) && |w| == d.valueBytes
    ensures |sealed| == |w|
  {
    if d.manifestVersion then ManifestWindow(c, w) else prints[d.nodeId]
  }

  // ----- the run over all descriptors -----

  datatype Sealing = Sealing(records: seq<Bytes>, manifestSealed: bool, seals: nat, failed: bool)

  /** The content with the value of `d`, which lies at `within`, sealed. */
  function SealedValue(content: Bytes, within: nat, c: Canonical, prints: Prints, d: Descriptor): (sealed: Bytes)
    requires Usable(d, prints, false) && within + d.valueBytes <= |content|
    ensures |sealed| == |content|
  {
    Write(content, within, Window(c, prints, d, content[within..within + d.valueBytes]))
  }

  predicate Passes(s: Sealing, offsets: seq<nat>, prints: Prints, d: Descriptor)
    requires |s.records| == |offsets|
  {
    !s.failed && Addressed(s.records, offsets, d) && Usable(d, prints, s.manifestSealed)
  }

  function SealOne(s: Sealing, offsets: seq<nat>, c: Canonical, prints: Prints, d: Descriptor): (t: Sealing)
    requires |s.records| == |offsets|
    ensures |t.records| == |offsets|
  {
    if !Passes(s, offsets, prints, d) then s.(failed := true)
    else
      Sealing(SealedRecords(s.records, offsets, c, prints, d), s.manifestSealed || d.manifestVersion,
              s.seals + if d.manifestVersion then 0 else 1, false)
  }

  function SealedRecords(records: seq<Bytes>, offsets: seq<nat>, c: Canonical, prints: Prints, d: Descriptor)
    : (t: seq<Bytes>)
    requires |records| == |offsets| && Addressed(records, offsets, d) && Usable(d, prints, false)
    ensures |t| == |records|
  {
    var at := PlaceOf(records, offsets, d);
    records[at := SealedValue(records[at], d.valueOffset - offsets[at], c, prints, d)]
  }

  /** The first `k` descriptors, in order; nothing more happens after a failure. */
  function SealFirst(records: seq<Bytes>, offsets: seq<nat>, c: Canonical, prints: Prints, k: nat): (s: Sealing)
    requires |records| == |offsets| && k <= |c.descriptors|
    ensures |s.records| == |offsets|
  {
    if k == 0 then Sealing(records, false, 0, false)
    else SealOne(SealFirst(records, offsets, c, prints, k - 1), offsets, c, prints, c.descriptors[k - 1])
  }

  ghost predicate DistinctIds(prints: seq<Fingerprint>) {
    forall i, j :: 0 <= i < j < |prints| ==> prints[i].nodeId != prints[j].nodeId
  }

  function PrintMap(prints: seq<Fingerprint>): Prints {
    if prints == [] then map[]
    else PrintMap(prints[..|prints| - 1])[prints[|prints| - 1].nodeId := prints[|prints| - 1].fingerprint]
  }

  /** The final counts that success requires. */
  predicate CountsAgree(s: Sealing, c: Canonical, nodes: nat) {
    !s.failed && s.manifestSealed && s.seals == nodes && |c.descriptors| == nodes + 1
  }

  function FullySealed(records: seq<Bytes>, offsets: seq<nat>, c: Canonical): seq<Bytes>
    requires |records| == |offsets|
  {
    SealFirst(records, offsets, c, PrintMap(c.fingerprints), |c.descriptors|).records
  }

  ghost predicate Seals(records: seq<Bytes>, offsets: seq<nat>, c: Canonical)
    requires |records| == |offsets|
  {
    c.rootsPresent && c.descriptors != [] && DistinctIds(c.fingerprints) &&
    CountsAgree(SealFirst(records, offsets, c, PrintMap(c.fingerprints), |c.descriptors|), c, |c.fingerprints|)
  }

  // ----- the operation -----

  ghost predicate Named(prints: seq<Fingerprint>, id: Bytes) {
    exists i :: 0 <= i < |prints| && prints[i].nodeId == id
  }

  lemma {:induction false} NamedStep(prints: seq<Fingerprint>, id: Bytes)
    requires prints != []
    ensures Named(prints, id) <==> Named(prints[..|prints| - 1], id) || prints[|prints| - 1].nodeId == id
  {
    var before := prints[..|prints| - 1];
    if Named(before, id) {
      var i :| 0 <= i < |before| && before[i].nodeId == id;
      assert prints[i].nodeId == id;
    }
    if Named(prints, id) {
      var i :| 0 <= i < |prints| && prints[i].nodeId == id;
      assert i < |before| ==> before[i].nodeId == id;
    }
  }

  lemma {:induction false} PrintMapNames(prints: seq<Fingerprint>, id: Bytes)
    ensures id in PrintMap(prints) <==> Named(prints, id)
  {
    if prints != [] {
      PrintMapNames(prints[..|prints| - 1], id);
      NamedStep(prints, id);
    }
  }

  lemma {:induction false} PrintMapSize(prints: seq<Fingerprint>)
    requires DistinctIds(prints)
    ensures |PrintMap(prints)| == |prints|
  {
    if prints != [] {
      var before, last := prints[..|prints| - 1], prints[|prints| - 1];
      PrintMapSize(before);
      PrintMapNames(before, last.nodeId);
      assert PrintMap(prints).Keys == PrintMap(before).Keys + {last.nodeId};
    }
  }

  lemma {:induction false} PrintMapValue(prints: seq<Fingerprint>, i: nat)
    requires DistinctIds(prints) && i < |prints|
    ensures prints[i].nodeId in PrintMap(prints) && PrintMap(prints)[prints[i].nodeId] == prints[i].fingerprint
  {
    if i < |prints| - 1 {
      PrintMapValue(prints[..|prints| - 1], i);
    }
  }

  lemma {:induction false} DistinctStep(prints: seq<Fingerprint>, k: nat)
    requires k < |prints| && DistinctIds(prints[..k])
    ensures prints[k].nodeId in PrintMap(prints[..k]) ==> !DistinctIds(prints)
    ensures prints[k].nodeId !in PrintMap(prints[..k]) ==> DistinctIds(prints[..k + 1])
    ensures PrintMap(prints[..k + 1]) == PrintMap(prints[..k])[prints[k].nodeId := prints[k].fingerprint]
  {
    var before := prints[..k];
    assert prints[..k + 1][..k] == before;
    PrintMapNames(before, prints[k].nodeId);
    if prints[k].nodeId in PrintMap(before) {
      var i :| 0 <= i < |before| && before[i].nodeId == prints[k].nodeId;
      assert prints[i].nodeId == prints[k].nodeId;
    } else {
      forall i | 0 <= i < k ensures prints[i].nodeId != prints[k].nodeId {
        assert before[i] == prints[i];
        assert Named(before, before[i].nodeId);
      }
    }
  }

  /** The fingerprints by node; a node named twice refuses the seal. */
  method CollectPrints(prints: seq<Fingerprint>) returns (ok: bool, m: Prints)
    ensures ok <==> DistinctIds(prints)
    ensures ok ==> m == PrintMap(prints) && |m| == |prints|
  {
    m := map[];
    for k := 0 to |prints|
      invariant DistinctIds(prints[..k]) && m == PrintMap(prints[..k])
    {
      DistinctStep(prints, k);
      if prints[k].nodeId in m {
        return false, m;
      }
      m := m[prints[k].nodeId := prints[k].fingerprint];
    }
    assert prints[..|prints|] == prints;
    PrintMapSize(prints);
    ok := true;
  }

  /** The five writes into the manifest value are one write of its sealed window. */
  lemma {:induction false} ManifestWrites(record: Bytes, within: nat, c: Canonical)
    requires within + VersionBytes <= |record|
    ensures var flags := Write(record, within + 10, [Flag(c.semanticCertified), Flag(c.layoutPresent)]);
      var semantic := Write(flags, within + 72, c.semanticRoot);
      var layout := Write(semantic, within + 104, c.layoutRoot);
      Write(layout, within + 136, c.captureRoot) ==
      Write(record, within, ManifestWindow(c, record[within..within + VersionBytes]))
  {
  }

  /** Writes one sealed value into its record. */
  method SealRecord(record: Bytes, within: nat, c: Canonical, prints: Prints, d: Descriptor) returns (sealed: Bytes)
    requires Usable(d, prints, false) && within + d.valueBytes <= |record|
    ensures sealed == SealedValue(record, within, c, prints, d)
  {
    if d.manifestVersion {
      ManifestWrites(record, within, c);
      sealed := Write(record, within + 10, [Flag(c.semanticCertified), Flag(c.layoutPresent)]);
      sealed := Write(sealed, within + 72, c.semanticRoot);
      sealed := Write(sealed, within + 104, c.layoutRoot);
      sealed := Write(sealed, within + 136, c.captureRoot);
    } else {
      sealed := Write(record, within, prints[d.nodeId]);
    }
  }

  /** Applies one descriptor to the stream. */
  method SealDescriptor(stream: SegmentedRecords, c: Canonical, prints: Prints, d: Descriptor,
                        manifestSealed: bool, ghost s: Sealing)
    returns (ok: bool)
    requires |stream.offsets| == |stream.records|
    requires s.records == stream.records && s.manifestSealed == manifestSealed && !s.failed
    modifies stream`records
    ensures ok <==> Passes(s, stream.offsets, prints, d)
    ensures stream.records == SealOne(s, stream.offsets, c, prints, d).records
  {
    if !Addressed(stream.records, stream.offsets, d) || !Usable(d, prints, manifestSealed) {
      return false;
    }
    WriteSealed(stream, c, prints, d);
    ok := true;
  }

  method WriteSealed(stream: SegmentedRecords, c: Canonical, prints: Prints, d: Descriptor)
    requires |stream.offsets| == |stream.records|
    requires Addressed(stream.records, stream.offsets, d) && Usable(d, prints, false)
    modifies stream`records
    ensures stream.records == SealedRecords(old(stream.records), stream.offsets, c, prints, d)
  {
    var at, sealed := SealInPlace(stream.records, stream.offsets, c, prints, d);
    stream.records := stream.records[at := sealed];
  }

  method SealInPlace(records: seq<Bytes>, offsets: seq<nat>, c: Canonical, prints: Prints, d: Descriptor)
    returns (at: nat, sealed: Bytes)
    requires |offsets| == |records| && Addressed(records, offsets, d) && Usable(d, prints, false)
    ensures at < |records| && SealedRecords(records, offsets, c, prints, d) == records[at := sealed]
  {
    at := PlaceOf(records, offsets, d);
    var within := d.valueOffset - offsets[at];
    sealed := SealRecord(records[at], within, c, prints, d);
    OnlyItsRecord(records, offsets, c, prints, d, at, within, sealed);
  }

  lemma {:induction false} OnlyItsRecord(records: seq<Bytes>, offsets: seq<nat>, c: Canonical, prints: Prints,
                                         d: Descriptor, at: nat, within: nat, sealed: Bytes)
    requires |offsets| == |records| && Addressed(records, offsets, d) && Usable(d, prints, false)
    requires at == PlaceOf(records, offsets, d) && within == d.valueOffset - offsets[at]
    requires sealed == SealedValue(records[at], within, c, prints, d)
    ensures SealedRecords(records, offsets, c, prints, d) == records[at := sealed]
  {
  }

  lemma {:induction false} FailedStays(records: seq<Bytes>, offsets: seq<nat>, c: Canonical, prints: Prints,
                                       k: nat, n: nat)
    requires |records| == |offsets| && k <= n <= |c.descriptors|
    requires SealFirst(records, offsets, c, prints, k).failed
    ensures SealFirst(records, offsets, c, prints, n) == SealFirst(records, offsets, c, prints, k)
    decreases n
  {
    if k < n {
      FailedStays(records, offsets, c, prints, k, n - 1);
    }
  }

  /** Applies every descriptor, stopping at the first that is refused. */
  method SealAll(stream: SegmentedRecords, c: Canonical, prints: Prints) returns (ok: bool)
    requires |stream.offsets| == |stream.records|
    modifies stream`records
    ensures var last := SealFirst(old(stream.records), stream.offsets, c, prints, |c.descriptors|);
      stream.records == last.records && (ok <==> CountsAgree(last, c, |prints|))
  {
    ghost var was := stream.records;
    var manifestSealed, seals := false, 0;
    for k := 0 to |c.descriptors|
      invariant |stream.offsets| == |stream.records|
      invariant SealFirst(was, stream.offsets, c, prints, k) == Sealing(stream.records, manifestSealed, seals, false)
    {
      var d := c.descriptors[k];
      ghost var s := SealFirst(was, stream.offsets, c, prints, k);
      var sealed := SealDescriptor(stream, c, prints, d, manifestSealed, s);
      if !sealed {
        FailedStays(was, stream.offsets, c, prints, k + 1, |c.descriptors|);
        return false;
      }
      manifestSealed := manifestSealed || d.manifestVersion;
      seals := seals + if d.manifestVersion then 0 else 1;
    }
    ok := manifestSealed && seals == |prints| && |c.descriptors| == |prints| + 1;
  }

  /** Seals the completed stream in place; no record moves or changes its length. */
  method SealSegmentedRecords(stream: SegmentedRecords, c: Canonical) returns (ok: bool)
    requires stream.Valid()
    modifies stream`records
    ensures stream.Valid() && SameBoundaries(old(stream.records), stream.records)
    ensures ok <==> Seals(old(stream.records), stream.offsets, c)
    ensures ok ==> stream.records == FullySealed(old(stream.records), stream.offsets, c)
    ensures ChangedOnlyWhereSealed(old(stream.records), stream.records, c.descriptors)
  {
    if !c.rootsPresent || c.descriptors == [] {
      return false;
    }
    var distinct, prints := CollectPrints(c.fingerprints);
    if !distinct {
      return false;
    }
    ok := SealAll(stream, c, prints);
    ghost var sealed := SealedOutside(old(stream.records), stream.offsets, c, prints, |c.descriptors|);
  }

  // ----- what sealing means on the flat stream -----

  /** Sealing descriptor `d` may change the byte at `p`. */
  predicate Touches(d: Descriptor, p: nat) {
    if d.manifestVersion then
      d.valueOffset + 10 <= p < d.valueOffset + 12 || d.valueOffset + 72 <= p < d.valueOffset + VersionBytes
    else d.valueOffset <= p < d.End()
  }

  /** No descriptor seals the byte at `p`. */
  ghost predicate Unsealed(ds: seq<Descriptor>, p: nat) {
    forall i :: 0 <= i < |ds| ==> !Touches(ds[i], p)
  }

  ghost predicate FlatChangedOnlyIn(before: Bytes, after: Bytes, ds: seq<Descriptor>) {
    |before| == |after| && forall p :: 0 <= p < |before| && Unsealed(ds, p) ==> after[p] == before[p]
  }

  ghost predicate ChangedOnlyWhereSealed(before: seq<Bytes>, after: seq<Bytes>, ds: seq<Descriptor>) {
    FlatChangedOnlyIn(Flat(before), Flat(after), ds)
  }

  lemma {:induction false} BoundariesGiveFlat(a: seq<Bytes>, b: seq<Bytes>, offsets: seq<nat>)
    requires SameBoundaries(a, b) && Indexed(a, offsets)
    ensures |Flat(a)| == |Flat(b)| && Indexed(b, offsets)
  {
    FlatWhole(a);
    FlatWhole(b);
    SameStarts(a, b, |a|);
    forall i | 0 <= i < |b| ensures offsets[i] == StartOf(b, i) && b[i] != [] {
      SameStarts(a, b, i);
    }
  }

  /** Sealing a value inside its record is sealing it in the flat stream. */
  lemma {:induction false} SealedAt(records: seq<Bytes>, t: seq<Bytes>, at: nat, within: nat, c: Canonical,
                                    prints: Prints, d: Descriptor)
    requires at < |records| && within + d.valueBytes <= |records[at]|
    requires StartOf(records, at) + within == d.valueOffset && d.valueBytes > 0 && Usable(d, prints, false)
    requires t == records[at := SealedValue(records[at], within, c, prints, d)]
    ensures d.End() <= |Flat(records)| && Flat(t) == SealedValue(Flat(records), d.valueOffset, c, prints, d)
  {
    var window := WindowInFlat(records, at, within, c, prints, d);
    SealedValueIs(records[at], within, c, prints, d, window);
    SealedValueIs(Flat(records), d.valueOffset, c, prints, d, window);
    WrittenAt(records, t, at, within, d.valueOffset, window);
  }

  lemma {:induction false} WindowInFlat(records: seq<Bytes>, at: nat, within: nat, c: Canonical, prints: Prints,
                                        d: Descriptor)
    returns (window: Bytes)
    requires at < |records| && within + d.valueBytes <= |records[at]|
    requires StartOf(records, at) + within == d.valueOffset && d.valueBytes > 0 && Usable(d, prints, false)
    ensures window == Window(c, prints, d, records[at][within..within + d.valueBytes]) && d.End() <= |Flat(records)|
    ensures window == Window(c, prints, d, Flat(records)[d.valueOffset..d.valueOffset + d.valueBytes])
  {
    SliceOfRecord(records, at, d.valueOffset, d.valueBytes);
    window := Window(c, prints, d, records[at][within..within + d.valueBytes]);
  }

  lemma {:induction false} WrittenAt(records: seq<Bytes>, t: seq<Bytes>, at: nat, within: nat, offset: nat,
                                     window: Bytes)
    requires at < |records| && within + |window| <= |records[at]| && StartOf(records, at) + within == offset
    requires t == records[at := Write(records[at], within, window)]
    ensures offset + |window| <= |Flat(records)| && Flat(t) == Write(Flat(records), offset, window)
  {
    WriteInRecord(records, at, within, window);
  }

  lemma {:induction false} SealedValueIs(content: Bytes, within: nat, c: Canonical, prints: Prints, d: Descriptor,
                                         window: Bytes)
    requires Usable(d, prints, false) && within + d.valueBytes <= |content|
    requires window == Window(c, prints, d, content[within..within + d.valueBytes])
    ensures |window| == d.valueBytes && SealedValue(content, within, c, prints, d) == Write(content, within, window)
  {
  }

  lemma {:induction false} ReplacedKeepsBoundaries(records: seq<Bytes>, at: nat, record: Bytes, t: seq<Bytes>)
    requires at < |records| && |record| == |records[at]| && t == records[at := record]
    ensures SameBoundaries(records, t)
  {
  }

  /** One accepted descriptor is one write of its sealed window into the flat stream. */
  lemma {:induction false} SealIsWrite(s: Sealing, t: Sealing, offsets: seq<nat>, c: Canonical, prints: Prints,
                                       d: Descriptor)
    requires Indexed(s.records, offsets) && Passes(s, offsets, prints, d) && t == SealOne(s, offsets, c, prints, d)
    ensures SameBoundaries(s.records, t.records) && d.End() <= |Flat(s.records)|
    ensures Flat(t.records) == SealedValue(Flat(s.records), d.valueOffset, c, prints, d)
  {
    RecordsAreWritten(s.records, t.records, offsets, c, prints, d);
  }

  lemma {:induction false} RecordsAreWritten(records: seq<Bytes>, t: seq<Bytes>, offsets: seq<nat>, c: Canonical,
                                             prints: Prints, d: Descriptor)
    requires Indexed(records, offsets) && Addressed(records, offsets, d) && Usable(d, prints, false)
    requires t == SealedRecords(records, offsets, c, prints, d)
    ensures SameBoundaries(records, t) && d.End() <= |Flat(records)|
    ensures Flat(t) == SealedValue(Flat(records), d.valueOffset, c, prints, d)
  {
    var at, within := AddressedWithin(records, offsets, d);
    var sealed := SealedValue(records[at], within, c, prints, d);
    OnlyItsRecord(records, offsets, c, prints, d, at, within, sealed);
    RecordIsWritten(records, t, at, within, sealed, c, prints, d);
  }

  lemma {:induction false} AddressedWithin(records: seq<Bytes>, offsets: seq<nat>, d: Descriptor)
    returns (at: nat, within: nat)
    requires Indexed(records, offsets) && Addressed(records, offsets, d) && d.valueBytes > 0
    ensures at == PlaceOf(records, offsets, d) && within == d.valueOffset - offsets[at]
    ensures within + d.valueBytes <= |records[at]| && within < |records[at]|
    ensures StartOf(records, at) + within == d.valueOffset && Located(records, at, d.valueOffset)
  {
    at := PlaceOf(records, offsets, d);
    within := d.valueOffset - offsets[at];
  }

  lemma {:induction false} RecordIsWritten(records: seq<Bytes>, t: seq<Bytes>, at: nat, within: nat, sealed: Bytes,
                                           c: Canonical, prints: Prints, d: Descriptor)
    requires at < |records| && within + d.valueBytes <= |records[at]| && Usable(d, prints, false)
    requires StartOf(records, at) + within == d.valueOffset && Located(records, at, d.valueOffset)
    requires sealed == SealedValue(records[at], within, c, prints, d) && t == records[at := sealed]
    ensures SameBoundaries(records, t) && d.End() <= |Flat(records)|
    ensures Flat(t) == SealedValue(Flat(records), d.valueOffset, c, prints, d)
  {
    ReplacedKeepsBoundaries(records, at, sealed, t);
    SealedAt(records, t, at, within, c, prints, d);
  }

  lemma {:induction false} FlatKeeps(content: Bytes, c: Canonical, prints: Prints, ds: seq<Descriptor>, k: nat)
    requires k < |ds| && Usable(ds[k], prints, false) && ds[k].End() <= |content|
    ensures FlatChangedOnlyIn(content, SealedValue(content, ds[k].valueOffset, c, prints, ds[k]), ds)
  {
    var sealed := SealedValue(content, ds[k].valueOffset, c, prints, ds[k]);
    forall p | 0 <= p < |content| && Unsealed(ds, p) ensures sealed[p] == content[p] {
      assert !Touches(ds[k], p);
      WindowKeeps(content, c, prints, ds[k], p);
    }
  }

  /** The boundaries are kept, and so is every byte that no descriptor seals. */
  ghost predicate SealsOnly(before: seq<Bytes>, after: seq<Bytes>, offsets: seq<nat>, ds: seq<Descriptor>) {
    Indexed(before, offsets) && Indexed(after, offsets) && SameBoundaries(before, after) &&
    ChangedOnlyWhereSealed(before, after, ds)
  }

  // ----- the run on the flat stream -----

  datatype FlatState = FlatState(content: Bytes, manifestSealed: bool, seals: nat, failed: bool)

  function Abstract(s: Sealing): FlatState {
    FlatState(Flat(s.records), s.manifestSealed, s.seals, s.failed)
  }

  /** What one descriptor does to the flat stream, if it is not refused. */
  ghost predicate FlatStep(s: FlatState, t: FlatState, c: Canonical, prints: Prints, d: Descriptor) {
    if t.failed then t.content == s.content
    else
      !s.failed && Usable(d, prints, s.manifestSealed) && d.End() <= |s.content| &&
      t.content == SealedValue(s.content, d.valueOffset, c, prints, d) &&
      t.manifestSealed == (s.manifestSealed || d.manifestVersion) &&
      t.seals == s.seals + if d.manifestVersion then 0 else 1
  }

  ghost predicate FlatRun(run: seq<FlatState>, c: Canonical, prints: Prints) {
    0 < |run| <= |c.descriptors| + 1 &&
    forall j :: 0 <= j < |run| - 1 ==> FlatStep(run[j], run[j + 1], c, prints, c.descriptors[j])
  }

  lemma {:induction false} RunOneMore(run: seq<FlatState>, t: FlatState, c: Canonical, prints: Prints)
    requires FlatRun(run, c, prints) && |run| <= |c.descriptors|
    requires FlatStep(run[|run| - 1], t, c, prints, c.descriptors[|run| - 1])
    ensures FlatRun(run + [t], c, prints)
  {
    var more := run + [t];
    forall j | 0 <= j < |run| ensures FlatStep(more[j], more[j + 1], c, prints, c.descriptors[j]) {
      assert more[j] == run[j] && more[j + 1] == if j + 1 < |run| then run[j + 1] else t;
    }
  }

  lemma {:induction false} StepIsFlat(s: Sealing, t: Sealing, offsets: seq<nat>, c: Canonical, prints: Prints,
                                      d: Descriptor)
    requires Indexed(s.records, offsets) && t == SealOne(s, offsets, c, prints, d)
    ensures SameBoundaries(s.records, t.records) && Indexed(t.records, offsets)
    ensures FlatStep(Abstract(s), Abstract(t), c, prints, d)
  {
    if Passes(s, offsets, prints, d) {
      SealIsWrite(s, t, offsets, c, prints, d);
      BoundariesGiveFlat(s.records, t.records, offsets);
    }
  }

  lemma {:induction false} NextSeal(records: seq<Bytes>, offsets: seq<nat>, c: Canonical, prints: Prints, k: nat,
                                    s: Sealing)
    returns (t: Sealing)
    requires |records| == |offsets| && 0 < k <= |c.descriptors| && s == SealFirst(records, offsets, c, prints, k - 1)
    ensures t == SealFirst(records, offsets, c, prints, k) && t == SealOne(s, offsets, c, prints, c.descriptors[k - 1])
  {
    t := SealFirst(records, offsets, c, prints, k);
  }

  /** `run` is the flat run from `records` to `t`. */
  ghost predicate Simulates(records: seq<Bytes>, offsets: seq<nat>, c: Canonical, prints: Prints, k: nat, t: Sealing,
                            run: seq<FlatState>)
  {
    SameBoundaries(records, t.records) && Indexed(t.records, offsets) && FlatRun(run, c, prints) && |run| == k + 1 &&
    run[0] == FlatState(Flat(records), false, 0, false) && run[k] == Abstract(t)
  }

  lemma {:induction false} SimulatesStart(records: seq<Bytes>, offsets: seq<nat>, c: Canonical, prints: Prints)
    returns (t: Sealing, run: seq<FlatState>)
    requires Indexed(records, offsets)
    ensures t == SealFirst(records, offsets, c, prints, 0) && Simulates(records, offsets, c, prints, 0, t, run)
  {
    t := Sealing(records, false, 0, false);
    run := [Abstract(t)];
  }

  lemma {:induction false} SimulatesOneMore(records: seq<Bytes>, offsets: seq<nat>, c: Canonical, prints: Prints,
                                            k: nat,
                                            s: Sealing, t: Sealing, run: seq<FlatState>)
    returns (more: seq<FlatState>)
    requires Simulates(records, offsets, c, prints, k, s, run) && k < |c.descriptors|
    requires t == SealOne(s, offsets, c, prints, c.descriptors[k])
    ensures Simulates(records, offsets, c, prints, k + 1, t, more)
  {
    StepIsFlat(s, t, offsets, c, prints, c.descriptors[k]);
    RunOneMore(run, Abstract(t), c, prints);
    more := run + [Abstract(t)];
  }

  lemma {:induction false} RunNext(records: seq<Bytes>, offsets: seq<nat>, c: Canonical, prints: Prints, k: nat,
                                   s: Sealing, run: seq<FlatState>)
    returns (t: Sealing, more: seq<FlatState>)
    requires |records| == |offsets| && 0 < k <= |c.descriptors| && s == SealFirst(records, offsets, c, prints, k - 1)
    requires Simulates(records, offsets, c, prints, k - 1, s, run)
    ensures t == SealFirst(records, offsets, c, prints, k) && Simulates(records, offsets, c, prints, k, t, more)
  {
    t := NextSeal(records, offsets, c, prints, k, s);
    more := SimulatesOneMore(records, offsets, c, prints, k - 1, s, t, run);
  }

  /** Sealing the records, descriptor by descriptor, does to the flat stream what the flat run does. */
  lemma {:induction false} RunIsFlat(records: seq<Bytes>, offsets: seq<nat>, c: Canonical, prints: Prints, k: nat)
    returns (t: Sealing, run: seq<FlatState>)
    requires Indexed(records, offsets) && k <= |c.descriptors|
    ensures t == SealFirst(records, offsets, c, prints, k) && Simulates(records, offsets, c, prints, k, t, run)
  {
    if k == 0 {
      t, run := SimulatesStart(records, offsets, c, prints);
    } else {
      var s, before := RunIsFlat(records, offsets, c, prints, k - 1);
      t, run := RunNext(records, offsets, c, prints, k, s, before);
    }
  }

  lemma {:induction false} FlatOutside(run: seq<FlatState>, c: Canonical, prints: Prints, j: nat)
    requires FlatRun(run, c, prints) && j < |run|
    ensures FlatChangedOnlyIn(run[0].content, run[j].content, c.descriptors)
  {
    if j > 0 {
      FlatOutside(run, c, prints, j - 1);
      StepOutside(run[j - 1], run[j], c, prints, j - 1);
    }
  }

  lemma {:induction false} StepOutside(s: FlatState, t: FlatState, c: Canonical, prints: Prints, k: nat)
    requires k < |c.descriptors| && FlatStep(s, t, c, prints, c.descriptors[k])
    ensures FlatChangedOnlyIn(s.content, t.content, c.descriptors)
  {
    if !t.failed {
      FlatKeeps(s.content, c, prints, c.descriptors, k);
    }
  }

  /** Any prefix of the run keeps the boundaries and changes no byte that its descriptors do not seal. */
  lemma {:induction false} SealedOutside(records: seq<Bytes>, offsets: seq<nat>, c: Canonical, prints: Prints, k: nat)
    returns (t: Sealing)
    requires Indexed(records, offsets) && k <= |c.descriptors|
    ensures t == SealFirst(records, offsets, c, prints, k)
    ensures SealsOnly(records, t.records, offsets, c.descriptors)
  {
    var run;
    t, run := RunIsFlat(records, offsets, c, prints, k);
    FlatOutside(run, c, prints, k);
  }

  lemma {:induction false} WindowKeeps(content: Bytes, c: Canonical, prints: Prints, d: Descriptor, p: nat)
    requires Usable(d, prints, false) && d.End() <= |content| && p < |content| && !Touches(d, p)
    ensures Write(content, d.valueOffset, Window(c, prints, d, content[d.valueOffset..d.End()]))[p] == content[p]
  {
  }
}
