/** Comparing the results of the two capture attempts field by field. */
module AttemptComparison {
  import opened Options

  /** A SHA-256 digest, a node id and a byte range appear here only as values to compare. */
  type Digest = nat
  type NodeId = nat

  datatype Integrity = CompleteIntegrity | IncompleteIntegrity

  datatype CanonicalStream = CanonicalStream(length: nat, digest: Digest)
  datatype StreamResult = StreamResult(itemCount: nat, byteLength: nat, digest: Digest)
  datatype NodeFingerprint = NodeFingerprint(nodeId: NodeId, fingerprint: Digest)

  datatype CapturedState = CapturedState(route: CanonicalStream, cursor: CanonicalStream,
                                         selection: CanonicalStream, modified: bool)

  /** The part that a manifest and a canonical pass have in common. */
  datatype Roots = Roots(semanticRoot: Digest, layoutRoot: Digest, captureRoot: Digest, semanticCertified: bool,
                         layoutPresent: bool, closedProfileBits: nat, integrity: Integrity)

  datatype Manifest = Manifest(roots: Roots, coverage: CanonicalStream, unavailable: CanonicalStream,
                               diagnostics: CanonicalStream)

  datatype Pass = Pass(roots: Roots, coverage: StreamResult, unavailable: StreamResult, diagnostics: StreamResult,
                       recordStream: StreamResult)

  const PassCount := 3

  type Passes = p: seq<Pass> | |p| == PassCount
    witness seq(PassCount, _ => Pass(Roots(0, 0, 0, false, false, 0, CompleteIntegrity), StreamResult(0, 0, 0),
                                     StreamResult(0, 0, 0), StreamResult(0, 0, 0), StreamResult(0, 0, 0)))

  /** `storage` stands for the file slices and callbacks, which are carried along and never compared. */
  datatype AttemptResult = AttemptResult(
    manifest: Manifest, passes: Passes, finalRecords: StreamResult, index: StreamResult, blobClosure: StreamResult,
    layoutEnvironment: seq<nat>, observedControlCount: nat, legacyDiagnosticFailed: bool,
    fingerprints: seq<NodeFingerprint>, storage: nat)

  datatype Mismatch =
    | SemanticRoot | LayoutRoot | CaptureRoot | SemanticCertified | LayoutPresent | ClosedProfiles | MismatchedIntegrity
    | Coverage | Unavailable | Diagnostics | LayoutEnvironment | ObservedControlCount | LegacyDiagnostic
    | FinalRecordStream | IndexDigest | BlobClosure | NodeFingerprints

  // ----- what each bit means -----

  predicate RootsDiffer(bit: Mismatch, a: Roots, b: Roots) {
    match bit
    case SemanticRoot => a.semanticRoot != b.semanticRoot
    case LayoutRoot => a.layoutRoot != b.layoutRoot
    case CaptureRoot => a.captureRoot != b.captureRoot
    case SemanticCertified => a.semanticCertified != b.semanticCertified
    case LayoutPresent => a.layoutPresent != b.layoutPresent
    case ClosedProfiles => a.closedProfileBits != b.closedProfileBits
    case MismatchedIntegrity => a.integrity != b.integrity
    case _ => false
  }

  predicate PassDiffers(bit: Mismatch, a: Pass, b: Pass) {
    match bit
    case Coverage => a.coverage != b.coverage
    case Unavailable => a.unavailable != b.unavailable
    case Diagnostics => a.diagnostics != b.diagnostics
    case FinalRecordStream => a.recordStream != b.recordStream
    case _ => RootsDiffer(bit, a.roots, b.roots)
  }

  predicate ManifestDiffers(bit: Mismatch, a: Manifest, b: Manifest) {
    match bit
    case Coverage => a.coverage != b.coverage
    case Unavailable => a.unavailable != b.unavailable
    case Diagnostics => a.diagnostics != b.diagnostics
    case _ => RootsDiffer(bit, a.roots, b.roots)
  }

  predicate ResultDiffers(bit: Mismatch, a: AttemptResult, b: AttemptResult) {
    match bit
    case LayoutEnvironment => a.layoutEnvironment != b.layoutEnvironment
    case ObservedControlCount => a.observedControlCount != b.observedControlCount
    case LegacyDiagnostic => a.legacyDiagnosticFailed != b.legacyDiagnosticFailed
    case FinalRecordStream => a.finalRecords != b.finalRecords
    case IndexDigest => a.index != b.index
    case BlobClosure => a.blobClosure != b.blobClosure
    case NodeFingerprints => a.fingerprints != b.fingerprints
    case _ => false
  }

  ghost predicate SomePassDiffers(bit: Mismatch, a: AttemptResult, b: AttemptResult, count: nat)
    requires count <= PassCount
  {
    exists k :: 0 <= k < count && PassDiffers(bit, a.passes[k], b.passes[k])
  }

  ghost predicate Differs(bit: Mismatch, a: AttemptResult, b: AttemptResult) {
    ManifestDiffers(bit, a.manifest, b.manifest) || SomePassDiffers(bit, a, b, PassCount) || ResultDiffers(bit, a, b)
  }

  /** The two attempts observed the same document: everything but where their bytes are stored is equal. */
  ghost predicate Agree(a: AttemptResult, b: AttemptResult) {
    a == b.(storage := a.storage)
  }

  // ----- the computation -----

  function Bit(bit: Mismatch, raised: bool): set<Mismatch> {
    if raised then {bit} else {}
  }

  method CompareRoots(a: Roots, b: Roots) returns (bits: set<Mismatch>)
    ensures forall bit :: bit in bits <==> RootsDiffer(bit, a, b)
  {
    bits := Bit(SemanticRoot, a.semanticRoot != b.semanticRoot);
    bits := bits + Bit(LayoutRoot, a.layoutRoot != b.layoutRoot);
    bits := bits + Bit(CaptureRoot, a.captureRoot != b.captureRoot);
    bits := bits + Bit(SemanticCertified, a.semanticCertified != b.semanticCertified);
    bits := bits + Bit(LayoutPresent, a.layoutPresent != b.layoutPresent);
    bits := bits + Bit(ClosedProfiles, a.closedProfileBits != b.closedProfileBits);
    bits := bits + Bit(MismatchedIntegrity, a.integrity != b.integrity);
  }

  method CompareManifests(a: Manifest, b: Manifest) returns (bits: set<Mismatch>)
    ensures forall bit :: bit in bits <==> ManifestDiffers(bit, a, b)
  {
    bits := CompareRoots(a.roots, b.roots);
    bits := bits + Bit(Coverage, a.coverage != b.coverage);
    bits := bits + Bit(Unavailable, a.unavailable != b.unavailable);
    bits := bits + Bit(Diagnostics, a.diagnostics != b.diagnostics);
  }

  method ComparePasses(a: Pass, b: Pass) returns (bits: set<Mismatch>)
    ensures forall bit :: bit in bits <==> PassDiffers(bit, a, b)
  {
    bits := CompareRoots(a.roots, b.roots);
    bits := bits + Bit(Coverage, a.coverage != b.coverage);
    bits := bits + Bit(Unavailable, a.unavailable != b.unavailable);
    bits := bits + Bit(Diagnostics, a.diagnostics != b.diagnostics);
    bits := bits + Bit(FinalRecordStream, a.recordStream != b.recordStream);
  }

  /** The bits raised by the three passes. */
  method CompareAllPasses(a: AttemptResult, b: AttemptResult) returns (bits: set<Mismatch>)
    ensures forall bit :: bit in bits <==> SomePassDiffers(bit, a, b, PassCount)
  {
    bits := {};
    for k := 0 to PassCount
      invariant forall bit :: bit in bits <==> SomePassDiffers(bit, a, b, k)
    {
      var raised := ComparePasses(a.passes[k], b.passes[k]);
      bits := bits + raised;
    }
  }

  method CompareRest(a: AttemptResult, b: AttemptResult) returns (bits: set<Mismatch>)
    ensures forall bit :: bit in bits <==> ResultDiffers(bit, a, b)
  {
    bits := Bit(LayoutEnvironment, a.layoutEnvironment != b.layoutEnvironment);
    bits := bits + Bit(ObservedControlCount, a.observedControlCount != b.observedControlCount);
    bits := bits + Bit(LegacyDiagnostic, a.legacyDiagnosticFailed != b.legacyDiagnosticFailed);
    bits := bits + Bit(FinalRecordStream, a.finalRecords != b.finalRecords);
    bits := bits + Bit(IndexDigest, a.index != b.index);
    bits := bits + Bit(BlobClosure, a.blobClosure != b.blobClosure);
    bits := bits + Bit(NodeFingerprints, a.fingerprints != b.fingerprints);
  }

  /** The mismatch bits of two attempts: a bit is raised exactly when what it names differs somewhere. */
  method ComputeAttemptMismatchBits(a: AttemptResult, b: AttemptResult) returns (bits: set<Mismatch>)
    ensures forall bit :: bit in bits <==> Differs(bit, a, b)
    ensures bits == {} <==> Agree(a, b)
  {
    bits := CompareManifests(a.manifest, b.manifest);
    var passes := CompareAllPasses(a, b);
    var rest := CompareRest(a, b);
    bits := bits + passes + rest;
    NothingDiffers(a, b);
  }

  lemma {:induction false} RootsEqual(a: Roots, b: Roots)
    ensures (forall bit :: !RootsDiffer(bit, a, b)) <==> a == b
  {
    if forall bit :: !RootsDiffer(bit, a, b) {
      assert !RootsDiffer(SemanticRoot, a, b) && !RootsDiffer(LayoutRoot, a, b);
      assert !RootsDiffer(CaptureRoot, a, b) && !RootsDiffer(SemanticCertified, a, b);
      assert !RootsDiffer(LayoutPresent, a, b) && !RootsDiffer(ClosedProfiles, a, b);
      assert !RootsDiffer(MismatchedIntegrity, a, b);
    }
  }

  lemma {:induction false} ManifestsEqual(a: Manifest, b: Manifest)
    ensures (forall bit :: !ManifestDiffers(bit, a, b)) <==> a == b
  {
    RootsEqual(a.roots, b.roots);
    if forall bit :: !ManifestDiffers(bit, a, b) {
      assert !ManifestDiffers(Coverage, a, b) && !ManifestDiffers(Unavailable, a, b);
      assert !ManifestDiffers(Diagnostics, a, b);
      assert forall bit :: RootsDiffer(bit, a.roots, b.roots) ==> ManifestDiffers(bit, a, b);
    }
  }

  lemma {:induction false} PassesEqual(a: Pass, b: Pass)
    ensures (forall bit :: !PassDiffers(bit, a, b)) <==> a == b
  {
    RootsEqual(a.roots, b.roots);
    if forall bit :: !PassDiffers(bit, a, b) {
      assert !PassDiffers(Coverage, a, b) && !PassDiffers(Unavailable, a, b);
      assert !PassDiffers(Diagnostics, a, b) && !PassDiffers(FinalRecordStream, a, b);
      assert forall bit :: RootsDiffer(bit, a.roots, b.roots) ==> PassDiffers(bit, a, b);
    }
  }

  lemma {:induction false} RestEqual(a: AttemptResult, b: AttemptResult)
    requires forall bit :: !ResultDiffers(bit, a, b)
    ensures a == b.(storage := a.storage, manifest := a.manifest, passes := a.passes)
  {
    assert !ResultDiffers(LayoutEnvironment, a, b) && !ResultDiffers(ObservedControlCount, a, b);
    assert !ResultDiffers(LegacyDiagnostic, a, b) && !ResultDiffers(FinalRecordStream, a, b);
    assert !ResultDiffers(IndexDigest, a, b) && !ResultDiffers(BlobClosure, a, b);
    assert !ResultDiffers(NodeFingerprints, a, b);
  }

  lemma {:induction false} NothingDiffers(a: AttemptResult, b: AttemptResult)
    ensures (forall bit :: !Differs(bit, a, b)) <==> Agree(a, b)
  {
    ManifestsEqual(a.manifest, b.manifest);
    forall k | 0 <= k < PassCount
      ensures (forall bit :: !PassDiffers(bit, a.passes[k], b.passes[k])) <==> a.passes[k] == b.passes[k]
    {
      PassesEqual(a.passes[k], b.passes[k]);
    }
    if forall bit :: !Differs(bit, a, b) {
      forall bit ensures !ManifestDiffers(bit, a.manifest, b.manifest) && !ResultDiffers(bit, a, b) {
        assert !Differs(bit, a, b);
      }
      RestEqual(a, b);
      forall k | 0 <= k < PassCount ensures a.passes[k] == b.passes[k] {
        forall bit ensures !PassDiffers(bit, a.passes[k], b.passes[k]) {
          assert !Differs(bit, a, b);
        }
      }
      assert a.passes == b.passes;
    }
  }

  // ----- the first node that differs -----

  /** The fingerprint that a list gives a node: the first one it names. */
  function Lookup(list: seq<NodeFingerprint>, node: NodeId): Option<Digest> {
    if list == [] then None
    else if list[0].nodeId == node then Some(list[0].fingerprint)
    else Lookup(list[1..], node)
  }

  predicate Diverges(item: NodeFingerprint, second: seq<NodeFingerprint>) {
    Lookup(second, item.nodeId).Some? && Lookup(second, item.nodeId) != Some(item.fingerprint)
  }

  lemma {:induction false} LookupMapped(list: seq<NodeFingerprint>, k: nat, node: NodeId)
    requires k < |list|
    ensures Lookup(list[..k + 1], node) ==
            if Lookup(list[..k], node).None? && list[k].nodeId == node then Some(list[k].fingerprint)
            else Lookup(list[..k], node)
  {
    if k > 0 {
      LookupMapped(list[1..], k - 1, node);
      assert list[..k + 1][1..] == list[1..][..k] && list[..k][1..] == list[1..][..k - 1];
    }
  }

  /** The index of one list by node: the first entry of a node stays. */
  method IndexByNode(list: seq<NodeFingerprint>) returns (byNode: map<NodeId, Digest>)
    ensures forall node :: (if node in byNode then Some(byNode[node]) else None) == Lookup(list, node)
  {
    byNode := map[];
    for k := 0 to |list|
      invariant forall node :: (if node in byNode then Some(byNode[node]) else None) == Lookup(list[..k], node)
    {
      forall node ensures Lookup(list[..k + 1], node) ==
        if Lookup(list[..k], node).None? && list[k].nodeId == node then Some(list[k].fingerprint)
        else Lookup(list[..k], node)
      {
        LookupMapped(list, k, node);
      }
      if list[k].nodeId !in byNode {
        byNode := byNode[list[k].nodeId := list[k].fingerprint];
      }
    }
    assert list[..|list|] == list;
  }

  /** The first node of the first attempt that the second attempt also has, with another fingerprint. */
  method FindFirstFingerprintDivergence(first: seq<NodeFingerprint>, second: seq<NodeFingerprint>)
    returns (node: Option<NodeId>, examined: nat)
    ensures node.None? <==> forall i :: 0 <= i < |first| ==> !Diverges(first[i], second)
    ensures node.None? ==> examined == |first|
    ensures node.Some? ==> 0 < examined <= |first| && node == Some(first[examined - 1].nodeId) &&
                           Diverges(first[examined - 1], second) &&
                           forall i :: 0 <= i < examined - 1 ==> !Diverges(first[i], second)
  {
    var byNode := IndexByNode(second);
    examined := 0;
    while examined < |first|
      invariant examined <= |first|
      invariant forall i :: 0 <= i < examined ==> !Diverges(first[i], second)
    {
      var item := first[examined];
      examined := examined + 1;
      assert (if item.nodeId in byNode then Some(byNode[item.nodeId]) else None) == Lookup(second, item.nodeId);
      if item.nodeId in byNode && item.fingerprint != byNode[item.nodeId] {
        return Some(item.nodeId), examined;
      }
    }
    node := None;
  }
}
