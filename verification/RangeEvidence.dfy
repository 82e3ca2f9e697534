/** The records the byte-range verifier reads: the containment manifest, the
    mutation policy captured before proposal, the source trees and the patch
    records. Directory walking and JSON decoding are inputs. */
module RangeEvidence {
  import opened Common

  datatype ByteChange = ByteChange(parentStart: nat, parentEnd: nat, childStart: nat, childEnd: nat)

  datatype Pair = Pair(name: string, value: string)

  datatype MutationSpan = MutationSpan(
    id: string, kind: string, op: string, start: nat, end: nat, sourceSha256: string,
    childStart: Option<nat>, childEnd: Option<nat>, childSourceSha256: Option<string>,
    contentHash: string, metadata: seq<Pair>, forbidden: bool)

  datatype FileContainment = FileContainment(
    path: string, parentSha256: Option<string>, childSha256: Option<string>,
    parentExecutable: Option<bool>, childExecutable: Option<bool>,
    spans: seq<MutationSpan>, changes: seq<ByteChange>)

  datatype PatchBinding = PatchBinding(id: string, sha256: string)

  datatype Manifest = Manifest(
    formatVersion: nat, epochId: string, parentGenerationId: string, generationId: string,
    parentSource: string, childSource: string, policySha256: string,
    patches: seq<PatchBinding>, files: seq<FileContainment>)

  datatype PolicyFile = PolicyFile(path: string, sha256: string, executable: bool)

  datatype PolicyPoint = PolicyPoint(
    path: string, id: string, kind: string, op: string, start: nat, end: nat,
    sourceSha256: string, contentHash: string, metadata: seq<Pair>, forbidden: bool)
  {
    function Key(): OpKey { OpKey(id, op) }

    predicate Matches(d: Declaration) {
      var span := d.span;
      && path == d.path
      && id == span.id
      && kind == span.kind
      && op == span.op
      && start == span.start
      && end == span.end
      && sourceSha256 == span.sourceSha256
      && contentHash == span.contentHash
      && metadata == span.metadata
      && forbidden == span.forbidden
    }
  }

  datatype MutationPolicy = MutationPolicy(
    formatVersion: nat, epochId: string, parentGenerationId: string, parentSource: string,
    sourceFiles: seq<PolicyFile>, enumerationRoots: seq<string>,
    briefSha256: string, scoringSha256: string, points: seq<PolicyPoint>)

  datatype SourceFile = SourceFile(bytes: seq<Byte>, executable: bool)

  type Tree = map<string, SourceFile>

  /** A JSON record after decoding, or why there is none. */
  datatype Decoded<T> = Missing | Malformed | Decoded(value: T)

  /** Absent fields and fields of another JSON type read as `None`. */
  datatype Experiment = Experiment(
    epochId: Option<string>, generationId: Option<string>,
    parentGenerationId: Option<string>, patchIds: Option<seq<string>>)

  datatype PatchBody = PatchBody(id: Option<string>, mutationId: Option<string>, op: Option<string>)

  /** The canonical source roots relative to the workspace; `None` when a root
      lies outside it. */
  datatype Roots = Roots(parent: Option<string>, child: Option<string>)

  /** Everything `attest` reads. `hash` is the hex digest of a byte string;
      `policyBytes`, `briefBytes` and `scoringBytes` are `None` when the captured
      record is not a readable regular file at its canonical location. */
  datatype Evidence = Evidence(
    hash: seq<Byte> -> string,
    epoch: string, parentId: string, childId: string,
    manifest: Decoded<Manifest>,
    roots: Option<Roots>,
    parentTree: Option<Tree>, childTree: Option<Tree>,
    policyBytes: Option<seq<Byte>>, decodePolicy: seq<Byte> -> Option<MutationPolicy>,
    briefBytes: Option<seq<Byte>>, scoringBytes: Option<seq<Byte>>,
    canonicalRoots: set<string>,
    experiment: Decoded<Experiment>,
    patchFiles: map<string, seq<Byte>>, decodePatch: seq<Byte> -> Option<PatchBody>)

  predicate SafeRelative(value: string) {
    && value != ""
    && '\\' !in value && '\0' !in value
    && forall part <- Split(value, '/') :: part != "" && part != "." && part != ".."
  }

  predicate IsDigest(value: string) {
    && |value| == 64
    && forall c <- value :: '0' <= c <= '9' || 'a' <= c <= 'f'
  }

  /** The hash comparison of `bound_bytes`, after its digest-shape check. */
  predicate Bound(hash: seq<Byte> -> string, bytes: Option<seq<Byte>>, expected: string) {
    IsDigest(expected) && bytes.Some? && hash(bytes.value) == expected
  }

  /** Component-wise prefix, as `Path::starts_with` decides it. */
  predicate Under(path: string, root: string) {
    root == "." || Split(root, '/') <= Split(path, '/')
  }

  /** What names an operation: a mutation unit and the operation on it. */
  datatype OpKey = OpKey(id: string, op: string)

  datatype Declaration = Declaration(path: string, span: MutationSpan) {
    function Key(): OpKey { OpKey(span.id, span.op) }
  }

  /** Every span of the manifest with its file, in file order. */
  function Declared(files: seq<FileContainment>): seq<Declaration> {
    if files == [] then []
    else Declared(files[..|files| - 1]) + Owned(files[|files| - 1].path, files[|files| - 1].spans)
  }

  function Owned(path: string, spans: seq<MutationSpan>): (r: seq<Declaration>)
    ensures |r| == |spans| && forall i :: 0 <= i < |spans| ==> r[i] == Declaration(path, spans[i])
  {
    seq(|spans|, i requires 0 <= i < |spans| => Declaration(path, spans[i]))
  }
}
