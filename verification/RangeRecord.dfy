/** What the orchestrator writes down of a generation, and that the verifier
    accepts it: `build_manifest` and `write_mutation_policy` against `attest`. */
module RangeRecord {
  import opened Common
  import opened RangeEvidence
  import opened RangePolicy
  import opened RangeSplice
  import opened RangeContainment
  import opened RangeBinding

  datatype Interval = Interval(start: nat, end: nat)
  {
    predicate Fits(n: nat) { start <= end <= n }
  }

  /** One operation on one enumerated unit: where it is in the parent, and in the
      child if the unit is still found there. */
  datatype Operation = Operation(
    path: string, id: string, kind: string, op: string, place: Interval, child: Option<Interval>,
    contentHash: string, metadata: seq<Pair>, forbidden: bool)
  {
    function Key(): OpKey { OpKey(id, op) }
  }

  datatype Patch = Patch(id: string, bytes: seq<Byte>)

  /** A parent and a child, and what the enumerator and the differ say of them. */
  datatype Generation = Generation(
    epoch: string, parentId: string, childId: string, parentSource: string, childSource: string,
    parent: Tree, child: Tree, parentPaths: seq<string>, paths: seq<string>, roots: seq<string>,
    ops: seq<Operation>, changes: string -> seq<ByteChange>, patches: seq<Patch>,
    brief: seq<Byte>, scoring: seq<Byte>)
  {
    function Before(path: string): seq<Byte> { if path in parent then parent[path].bytes else [] }

    function After(path: string): seq<Byte> { if path in child then child[path].bytes else [] }
  }

  // ---- the writer ---------------------------------------------------------

  function Cut(bytes: seq<Byte>, i: Interval): seq<Byte> {
    if i.Fits(|bytes|) then bytes[i.start..i.end] else []
  }

  function SpanOf(hash: Hash, g: Generation, o: Operation): MutationSpan {
    MutationSpan(
      o.id, o.kind, o.op, o.place.start, o.place.end, hash(Cut(g.Before(o.path), o.place)),
      if o.child.Some? then Some(o.child.value.start) else None,
      if o.child.Some? then Some(o.child.value.end) else None,
      if o.child.Some? then Some(hash(Cut(g.After(o.path), o.child.value))) else None,
      o.contentHash, o.metadata, o.forbidden)
  }

  /** The spans of one file, in the order of the policy's operations. */
  function SpansOf(hash: Hash, g: Generation, ops: seq<Operation>, path: string): seq<MutationSpan> {
    if ops == [] then []
    else
      var init, o := ops[..|ops| - 1], ops[|ops| - 1];
      SpansOf(hash, g, init, path) + if o.path == path then [SpanOf(hash, g, o)] else []
  }

  function FileOf(hash: Hash, g: Generation, path: string): FileContainment {
    FileContainment(
      path,
      if path in g.parent then Some(hash(g.parent[path].bytes)) else None,
      if path in g.child then Some(hash(g.child[path].bytes)) else None,
      if path in g.parent then Some(g.parent[path].executable) else None,
      if path in g.child then Some(g.child[path].executable) else None,
      SpansOf(hash, g, g.ops, path), g.changes(path))
  }

  function FilesOf(hash: Hash, g: Generation, paths: seq<string>): (files: seq<FileContainment>)
    ensures |files| == |paths| && forall i :: 0 <= i < |paths| ==> files[i] == FileOf(hash, g, paths[i])
  {
    seq(|paths|, i requires 0 <= i < |paths| => FileOf(hash, g, paths[i]))
  }

  /** `build_manifest`, lines 226-305. */
  function ManifestOf(hash: Hash, g: Generation, policySha256: string): Manifest {
    Manifest(1, g.epoch, g.parentId, g.childId, g.parentSource, g.childSource, policySha256,
             seq(|g.patches|, i requires 0 <= i < |g.patches| =>
                 PatchBinding(g.patches[i].id, hash(g.patches[i].bytes))),
             FilesOf(hash, g, g.paths))
  }

  function IdsOf(g: Generation): (ids: seq<string>)
    ensures |ids| == |g.patches| && forall i :: 0 <= i < |ids| ==> ids[i] == g.patches[i].id
  {
    seq(|g.patches|, i requires 0 <= i < |g.patches| => g.patches[i].id)
  }

  /** `source_files`. */
  function InventoryOf(hash: Hash, tree: Tree, paths: seq<string>): (files: seq<PolicyFile>)
    requires forall p <- paths :: p in tree
    ensures |files| == |paths|
    ensures forall i :: 0 <= i < |paths| ==>
              files[i] == PolicyFile(paths[i], hash(tree[paths[i]].bytes), tree[paths[i]].executable)
  {
    seq(|paths|, i requires 0 <= i < |paths| =>
        PolicyFile(paths[i], hash(tree[paths[i]].bytes), tree[paths[i]].executable))
  }

  function PointsOf(hash: Hash, g: Generation): (points: seq<PolicyPoint>)
    ensures |points| == |g.ops|
    ensures forall i :: 0 <= i < |g.ops| ==>
              points[i] == PointOf(Declaration(g.ops[i].path, SpanOf(hash, g, g.ops[i])))
  {
    seq(|g.ops|, i requires 0 <= i < |g.ops| => PointOf(Declaration(g.ops[i].path, SpanOf(hash, g, g.ops[i]))))
  }

  /** `write_mutation_policy`, lines 348-384. */
  function PolicyRecord(hash: Hash, g: Generation): MutationPolicy
    requires forall p <- g.parentPaths :: p in g.parent
  {
    MutationPolicy(1, g.epoch, g.parentId, g.parentSource, InventoryOf(hash, g.parent, g.parentPaths), g.roots,
                   hash(g.brief), hash(g.scoring), PointsOf(hash, g))
  }

  // ---- what the writer relies on ------------------------------------------

  /** The enumerator's answer for one operation. */
  ghost predicate SensibleOp(g: Generation, o: Operation) {
    && o.id != "" && o.kind in {"span", "file", "code"} && o.op in {"replace", "set_numeric", "set_enum"}
    && o.path in g.parent && o.place.Fits(|g.Before(o.path)|) && IsDigest(o.contentHash)
    && (o.child.Some? ==> o.child.value.Fits(|g.After(o.path)|))
    && exists r <- g.roots :: Under(o.path, r)
  }

  ghost predicate SensibleOps(g: Generation) {
    && g.ops != [] && (forall o <- g.ops :: SensibleOp(g, o))
    && forall i, j :: 0 <= i < j < |g.ops| ==> g.ops[i].Key() != g.ops[j].Key()
  }

  /** The listings hold every file once, and the differ covers each pair of files. */
  ghost predicate SensibleTrees(g: Generation) {
    && Distinct(g.paths) && (forall p :: p in g.paths <==> p in g.parent || p in g.child)
    && Distinct(g.parentPaths) && (forall p :: p in g.parentPaths <==> p in g.parent)
    && (forall p <- g.paths :: SafeRelative(p) && Coverage(g.changes(p), g.Before(p), g.After(p), 0, 0))
    && g.roots != [] && Distinct(g.roots) && forall r <- g.roots :: r == "." || SafeRelative(r)
  }

  ghost predicate SensibleNames(g: Generation) {
    && SafeId(g.epoch) && SafeId(g.parentId) && SafeId(g.childId)
    && SafeRelative(g.parentSource) && SafeRelative(g.childSource)
  }

  /** The patches were applied: each names an operation that is still found. */
  ghost predicate SensiblePatches(g: Generation, decode: seq<Byte> -> Option<PatchBody>) {
    && g.patches != [] && (forall i, j :: 0 <= i < j < |g.patches| ==> g.patches[i].id != g.patches[j].id)
    && forall p <- g.patches :: SafeId(p.id) && exists o <- g.ops :: Applies(o, p, decode)
  }

  ghost predicate Applies(o: Operation, p: Patch, decode: seq<Byte> -> Option<PatchBody>) {
    o.child.Some? && decode(p.bytes) == Some(PatchBody(Some(p.id), Some(o.id), Some(o.op)))
  }

  ghost predicate Sensible(g: Generation, decode: seq<Byte> -> Option<PatchBody>) {
    SensibleNames(g) && SensibleTrees(g) && SensibleOps(g) && SensiblePatches(g, decode)
  }

  /** The evidence is what was written of the generation, and the trees are as they
      were. */
  ghost predicate Holds(ev: Evidence, g: Generation)
    requires SensibleTrees(g)
  {
    && ev.epoch == g.epoch && ev.parentId == g.parentId && ev.childId == g.childId
    && ev.parentTree == Some(g.parent) && ev.childTree == Some(g.child)
    && ev.roots == Some(Roots(Some(g.parentSource), Some(g.childSource)))
    && ev.policyBytes.Some? && ev.decodePolicy(ev.policyBytes.value) == Some(PolicyRecord(ev.hash, g))
    && ev.manifest == Decoded(ManifestOf(ev.hash, g, ev.hash(ev.policyBytes.value)))
    && ev.briefBytes == Some(g.brief) && ev.scoringBytes == Some(g.scoring)
    && (forall r <- g.roots :: r in ev.canonicalRoots)
    && (forall p <- g.patches :: p.id in ev.patchFiles && ev.patchFiles[p.id] == p.bytes)
    && ev.experiment == Decoded(Experiment(Some(g.epoch), Some(g.childId), Some(g.parentId), Some(IdsOf(g))))
  }

  // ---- the records agree with one another ---------------------------------

  /** A file's spans are exactly its operations'. */
  lemma {:induction false} SpansOfFile(hash: Hash, g: Generation, ops: seq<Operation>, path: string)
    ensures forall s ::
              s in SpansOf(hash, g, ops, path) <==> exists o <- ops :: o.path == path && s == SpanOf(hash, g, o)
  {
    if ops != [] {
      var init, o := ops[..|ops| - 1], ops[|ops| - 1];
      SpansOfFile(hash, g, init, path);
      assert ops == init + [o];
    }
  }

  ghost predicate UniqueOps(ops: seq<Operation>) {
    forall i, j :: 0 <= i < j < |ops| ==> ops[i].Key() != ops[j].Key()
  }

  /** An operation on a unit of one of the paths. */
  ghost predicate OnPaths(g: Generation, paths: seq<string>, k: OpKey) {
    exists o <- g.ops :: o.path in paths && o.Key() == k
  }

  lemma {:induction false} SpansUnrepeated(hash: Hash, g: Generation, ops: seq<Operation>, path: string)
    requires UniqueOps(ops)
    ensures Unrepeated(Owned(path, SpansOf(hash, g, ops, path)))
  {
    if ops != [] {
      var n := |ops| - 1;
      var init, o := ops[..n], ops[n];
      SpansUnrepeated(hash, g, init, path);
      assert ops == init + [o];
      if o.path == path {
        var before, last := Owned(path, SpansOf(hash, g, init, path)), [Declaration(path, SpanOf(hash, g, o))];
        assert Owned(path, SpansOf(hash, g, ops, path)) == before + last;
        assert last[0].Key() in Keys(last);
        SpansOfFile(hash, g, init, path);
        forall k | k in Keys(before) ensures k != o.Key() {
          var i :| 0 <= i < |before| && before[i].Key() == k;
          assert before[i].span in SpansOf(hash, g, init, path);
        }
        UnrepeatedJoin(before, last);
      }
    }
  }

  lemma FileKeys(hash: Hash, g: Generation, path: string)
    ensures forall k <- Keys(Owned(path, SpansOf(hash, g, g.ops, path))) :: OnPaths(g, [path], k)
  {
    var own := Owned(path, SpansOf(hash, g, g.ops, path));
    SpansOfFile(hash, g, g.ops, path);
    forall k | k in Keys(own) ensures OnPaths(g, [path], k) {
      var i :| 0 <= i < |own| && own[i].Key() == k;
      assert own[i].span in SpansOf(hash, g, g.ops, path);
    }
  }

  lemma OnPathsOnce(g: Generation, paths: seq<string>, path: string, k: OpKey)
    requires UniqueOps(g.ops) && path !in paths && OnPaths(g, paths, k)
    ensures !OnPaths(g, [path], k)
  {
    var o :| o in g.ops && o.path in paths && o.Key() == k;
    forall o' | o' in g.ops && o'.Key() == k ensures o' == o {}
  }

  lemma OnMorePaths(g: Generation, paths: seq<string>, path: string, k: OpKey)
    requires OnPaths(g, paths, k) || OnPaths(g, [path], k)
    ensures OnPaths(g, paths + [path], k)
  {
    var o :| o in g.ops && (o.path in paths || o.path in [path]) && o.Key() == k;
    assert o.path in paths + [path];
  }

  /** The declarations of the files at these paths. */
  lemma {:induction false} DeclaredUnrepeated(hash: Hash, g: Generation, paths: seq<string>)
    requires UniqueOps(g.ops) && Distinct(paths)
    ensures Unrepeated(Declared(FilesOf(hash, g, paths)))
    ensures forall k <- Keys(Declared(FilesOf(hash, g, paths))) :: OnPaths(g, paths, k)
  {
    if paths != [] {
      var n := |paths| - 1;
      var init, path := paths[..n], paths[n];
      var files := FilesOf(hash, g, paths);
      DeclaredUnrepeated(hash, g, init);
      assert files[..n] == FilesOf(hash, g, init) && paths == init + [path];
      var before, own := Declared(files[..n]), Owned(path, SpansOf(hash, g, g.ops, path));
      SpansUnrepeated(hash, g, g.ops, path);
      FileKeys(hash, g, path);
      KeysJoin(before, own);
      forall k | k in Keys(before) ensures k !in Keys(own) {
        OnPathsOnce(g, init, path, k);
      }
      forall k | k in Keys(before) + Keys(own) ensures OnPaths(g, paths, k) {
        OnMorePaths(g, init, path, k);
      }
      UnrepeatedJoin(before, own);
    }
  }

  /** Each declaration is an operation's, in its own file. */
  lemma {:induction false} DeclaredFrom(hash: Hash, g: Generation, paths: seq<string>, i: nat) returns (k: nat)
    requires i < |Declared(FilesOf(hash, g, paths))|
    ensures k < |g.ops| && Declared(FilesOf(hash, g, paths))[i] == Declaration(g.ops[k].path, SpanOf(hash, g, g.ops[k]))
  {
    var n := |paths| - 1;
    var files := FilesOf(hash, g, paths);
    assert files[..n] == FilesOf(hash, g, paths[..n]);
    var before, own := Declared(files[..n]), Owned(paths[n], SpansOf(hash, g, g.ops, paths[n]));
    if i < |before| {
      k := DeclaredFrom(hash, g, paths[..n], i);
    } else {
      var s := SpansOf(hash, g, g.ops, paths[n])[i - |before|];
      SpansOfFile(hash, g, g.ops, paths[n]);
      assert s in SpansOf(hash, g, g.ops, paths[n]);
      var o :| o in g.ops && o.path == paths[n] && s == SpanOf(hash, g, o);
      k :| 0 <= k < |g.ops| && g.ops[k] == o;
    }
  }

  /** Every operation is declared in the record of its file. */
  lemma OperationDeclared(hash: Hash, g: Generation, o: Operation)
    requires o in g.ops && o.path in g.paths
    ensures exists f <- FilesOf(hash, g, g.paths) :: f.path == o.path && SpanOf(hash, g, o) in f.spans
  {
    var i :| 0 <= i < |g.paths| && g.paths[i] == o.path;
    SpansOfFile(hash, g, g.ops, o.path);
    var f := FilesOf(hash, g, g.paths)[i];
    assert f in FilesOf(hash, g, g.paths) && SpanOf(hash, g, o) in f.spans;
  }

  lemma OperationKeyed(hash: Hash, g: Generation, o: Operation)
    requires o in g.ops && o.path in g.paths
    ensures var files := FilesOf(hash, g, g.paths);
            && o.Key() in OpKeys(files) && o.Key() in Keys(Declared(files))
            && (o.child.Some? ==> o.Key() in ChildOpKeys(files))
  {
    var files := FilesOf(hash, g, g.paths);
    OperationDeclared(hash, g, o);
    DeclaredKeys(files, |files|);
    assert files[..|files|] == files;
    var f :| f in files && f.path == o.path && SpanOf(hash, g, o) in f.spans;
    assert o.Key() in OpKeys(files);
  }

  /** The manifest declares exactly what the policy captured. */
  lemma DeclaredAsCaptured(hash: Hash, g: Generation)
    requires SensibleTrees(g) && SensibleOps(g)
    ensures OneToOne(Declared(FilesOf(hash, g, g.paths)), PointsOf(hash, g))
  {
    var all, points := Declared(FilesOf(hash, g, g.paths)), PointsOf(hash, g);
    DeclaredUnrepeated(hash, g, g.paths);
    forall i | 0 <= i < |all| ensures Captured(all[i], points) && all[i].Key() in PointKeys(points) {
      var k := DeclaredFrom(hash, g, g.paths, i);
      assert points[k].Matches(all[i]) && points[k].Key() == all[i].Key();
    }
    forall j | 0 <= j < |points| ensures points[j].Key() in Keys(all) {
      assert g.ops[j] in g.ops && SensibleOp(g, g.ops[j]);
      OperationKeyed(hash, g, g.ops[j]);
    }
  }

  // ---- the verifier accepts them ------------------------------------------

  lemma InventoryAccepted(hash: Hash, g: Generation)
    requires SensibleTrees(g)
    ensures InventoryBound(hash, InventoryOf(hash, g.parent, g.parentPaths), g.parent)
  {
    var files := InventoryOf(hash, g.parent, g.parentPaths);
    forall p | p in g.parent ensures p in Paths(files) && SafeRelative(p) {
      assert p in g.parentPaths && p in g.paths;
      var i :| 0 <= i < |g.parentPaths| && g.parentPaths[i] == p;
      assert files[i].path == p;
    }
    assert forall i :: 0 <= i < |files| ==> files[i].path in g.parentPaths;
    InventoryAcceptsIff(hash, files, g.parent, g.parent);
  }

  lemma PointsAccepted(hash: Hash, g: Generation)
    requires SensibleTrees(g) && SensibleOps(g)
    ensures PointsBound(PointsOf(hash, g), set r <- g.roots)
  {
    var points := PointsOf(hash, g);
    forall p | p in points ensures PointPlaced(p, set r <- g.roots) {
      var i :| 0 <= i < |points| && points[i] == p;
      assert g.ops[i] in g.ops && SensibleOp(g, g.ops[i]);
      assert p.path in g.paths;
    }
    forall i, j | 0 <= i < j < |points| ensures points[i].Key() != points[j].Key() {
      assert g.ops[i].Key() != g.ops[j].Key();
    }
  }

  lemma PolicyAccepted(ev: Evidence, g: Generation)
    requires Sensible(g, ev.decodePatch) && Holds(ev, g) && forall b :: IsDigest(ev.hash(b))
    ensures PolicyBound(ev, ev.manifest.value, g.parent)
  {
    InventoryAccepted(ev.hash, g);
    PointsAccepted(ev.hash, g);
    DeclaredAsCaptured(ev.hash, g);
  }

  lemma FileAccepted(hash: Hash, g: Generation, path: string)
    requires SensibleTrees(g) && SensibleOps(g) && path in g.paths
    ensures FileBoundTo(hash, FileOf(hash, g, path), g.parent, g.child)
  {
    SpansOfFile(hash, g, g.ops, path);
    forall s | s in SpansOf(hash, g, g.ops, path) ensures SpanBound(hash, s, g.Before(path), g.After(path)) {
      var o :| o in g.ops && o.path == path && s == SpanOf(hash, g, o);
      assert SensibleOp(g, o);
    }
  }

  lemma {:induction false} DistinctCount(paths: seq<string>)
    requires Distinct(paths)
    ensures |(set p <- paths)| == |paths|
  {
    if paths != [] {
      var init, last := paths[..|paths| - 1], paths[|paths| - 1];
      DistinctCount(init);
      assert paths == init + [last];
      assert (set p <- paths) == (set p <- init) + {last};
    }
  }

  lemma PathsRecorded(hash: Hash, g: Generation)
    requires Distinct(g.paths)
    ensures RecordedPaths(FilesOf(hash, g, g.paths)) == (set p <- g.paths)
    ensures |RecordedPaths(FilesOf(hash, g, g.paths))| == |g.paths|
  {
    var files := FilesOf(hash, g, g.paths);
    forall p | p in g.paths ensures p in RecordedPaths(files) {
      var i :| 0 <= i < |g.paths| && g.paths[i] == p;
      assert files[i] in files;
    }
    DistinctCount(g.paths);
  }

  lemma FilesAccepted(hash: Hash, g: Generation)
    requires SensibleTrees(g) && SensibleOps(g)
    ensures AllBound(hash, FilesOf(hash, g, g.paths), g.parent, g.child)
    ensures InventoryComplete(FilesOf(hash, g, g.paths), g.parent, g.child)
  {
    var files := FilesOf(hash, g, g.paths);
    forall f | f in files ensures FileBoundTo(hash, f, g.parent, g.child) {
      var i :| 0 <= i < |files| && files[i] == f;
      FileAccepted(hash, g, g.paths[i]);
    }
    PathsRecorded(hash, g);
  }

  lemma PatchesAccepted(ev: Evidence, g: Generation)
    requires Sensible(g, ev.decodePatch) && Holds(ev, g) && forall b :: IsDigest(ev.hash(b))
    ensures var m := ev.manifest.value;
            PatchesBound(ev, m.patches, OpKeys(m.files), ChildOpKeys(m.files))
  {
    var m := ev.manifest.value;
    forall b | b in m.patches ensures PatchBound(ev, b, OpKeys(m.files), ChildOpKeys(m.files)) {
      var i :| 0 <= i < |m.patches| && m.patches[i] == b;
      var p := g.patches[i];
      assert p in g.patches;
      var o :| o in g.ops && Applies(o, p, ev.decodePatch);
      assert SensibleOp(g, o);
      OperationKeyed(ev.hash, g, o);
    }
  }

  lemma IdsCounted(patches: seq<PatchBinding>)
    requires Distinct(PatchIds(patches))
    ensures |IdSet(patches)| == |patches|
  {
    var ids := PatchIds(patches);
    DistinctCount(ids);
    forall id | id in IdSet(patches) ensures id in ids {
      var i :| 0 <= i < |patches| && patches[i].id == id;
      assert ids[i] == id;
    }
    forall id | id in ids ensures id in IdSet(patches) {
      var i :| 0 <= i < |ids| && ids[i] == id;
      assert patches[i] in patches;
    }
    assert IdSet(patches) == set id <- ids;
  }

  lemma ExperimentAccepted(ev: Evidence, g: Generation)
    requires SensibleTrees(g) && SensiblePatches(g, ev.decodePatch) && Holds(ev, g)
    ensures ExperimentBound(ev, ev.manifest.value.patches)
  {
    var ids := PatchIds(ev.manifest.value.patches);
    assert ids == ev.experiment.value.patchIds.value;
    assert Distinct(ids);
    IdsCounted(ev.manifest.value.patches);
  }

  lemma SomethingDeclared(hash: Hash, g: Generation)
    requires SensibleTrees(g) && SensibleOps(g)
    ensures exists f <- FilesOf(hash, g, g.paths) :: f.spans != []
  {
    var o := g.ops[0];
    assert o in g.ops && SensibleOp(g, o);
    OperationDeclared(hash, g, o);
  }

  lemma RecordsAccepted(ev: Evidence, g: Generation)
    requires Sensible(g, ev.decodePatch) && Holds(ev, g) && forall b :: IsDigest(ev.hash(b))
    ensures RecordsBound(ev)
  {
    PolicyAccepted(ev, g);
    SomethingDeclared(ev.hash, g);
  }

  /** Whatever the orchestrator writes of a generation, the verifier finds complete
      and consistent while the trees are as they were: the answer is never
      Unverified. */
  lemma RecordedIsBound(ev: Evidence, g: Generation)
    requires Sensible(g, ev.decodePatch) && Holds(ev, g) && forall b :: IsDigest(ev.hash(b))
    ensures EvidenceBound(ev)
  {
    RecordsAccepted(ev, g);
    FilesAccepted(ev.hash, g);
    PatchesAccepted(ev, g);
    ExperimentAccepted(ev, g);
  }

  // ---- and answers what the generation did --------------------------------

  /** The change lies in one allowed operation's place on both sides. */
  predicate AllowedBy(o: Operation, c: ByteChange) {
    && !o.forbidden && o.place.start <= c.parentStart && c.parentEnd <= o.place.end
    && o.child.Some? && o.child.value.start <= c.childStart && c.childEnd <= o.child.value.end
  }

  /** It shares a byte with the operation's place, or one is a point strictly inside
      the other, or both are the same point. */
  predicate Hits(o: Operation, c: ByteChange) {
    || (exists i: nat | i < o.place.end :: In(i, o.place.start, o.place.end) && In(i, c.parentStart, c.parentEnd))
    || (c.parentStart == c.parentEnd && o.place.start < c.parentStart < o.place.end)
    || (o.place.start == o.place.end && c.parentStart < o.place.start < c.parentEnd)
    || (c.parentStart == c.parentEnd == o.place.start == o.place.end)
  }

  /** Everything the child does to one file is allowed. */
  ghost predicate KeepsPolicy(hash: Hash, g: Generation, path: string) {
    && path in g.parent && path in g.child && g.parent[path].executable == g.child[path].executable
    && (forall o <- g.ops :: o.path == path && o.forbidden ==>
          o.child.Some? && hash(Cut(g.After(path), o.child.value)) == hash(Cut(g.Before(path), o.place)))
    && forall c <- g.changes(path) ::
         && (exists o <- g.ops :: o.path == path && AllowedBy(o, c))
         && (forall o <- g.ops :: o.path == path && o.forbidden ==> !Hits(o, c))
  }

  /** The patch is of a unit with no forbidden operation. */
  ghost predicate TargetAllowed(g: Generation, p: Patch, decode: seq<Byte> -> Option<PatchBody>) {
    forall o <- g.ops :: Applies(o, p, decode) ==> forall other <- g.ops :: other.id == o.id ==> !other.forbidden
  }

  ghost predicate TargetsAllowed(g: Generation, decode: seq<Byte> -> Option<PatchBody>) {
    forall p <- g.patches :: TargetAllowed(g, p, decode)
  }

  lemma SpanHits(hash: Hash, g: Generation, o: Operation, c: ByteChange)
    ensures Touches(SpanOf(hash, g, o), c) <==> Hits(o, c)
    ensures Allows(SpanOf(hash, g, o), c) <==> AllowedBy(o, c)
  {
    if i: nat :| i < o.place.end && In(i, o.place.start, o.place.end) && In(i, c.parentStart, c.parentEnd) {
      assert i < SpanOf(hash, g, o).end;
    }
  }

  lemma {:induction false} Ordered(cs: seq<ByteChange>, before: seq<Byte>, after: seq<Byte>, po: nat, co: nat)
    requires po <= |before| && co <= |after| && Coverage(cs, before, after, po, co)
    ensures forall c <- cs :: c.parentStart <= c.parentEnd
  {
    if cs != [] {
      Ordered(cs[1..], before, after, cs[0].parentEnd, cs[0].childEnd);
      assert cs == [cs[0]] + cs[1..];
    }
  }

  lemma ChangeAnswered(hash: Hash, g: Generation, path: string, c: ByteChange)
    requires SensibleOps(g) && c.parentStart <= c.parentEnd
    ensures ChangeLicensed(SpansOf(hash, g, g.ops, path), c) <==>
              && (exists o <- g.ops :: o.path == path && AllowedBy(o, c))
              && (forall o <- g.ops :: o.path == path && o.forbidden ==> !Hits(o, c))
  {
    var spans := SpansOf(hash, g, g.ops, path);
    SpansOfFile(hash, g, g.ops, path);
    forall o | o in g.ops && o.path == path
      ensures SpanOf(hash, g, o) in spans && (Allows(SpanOf(hash, g, o), c) <==> AllowedBy(o, c))
      ensures Overlaps(SpanOf(hash, g, o), c) <==> o.forbidden && Hits(o, c)
    {
      assert SensibleOp(g, o);
      SpanHits(hash, g, o, c);
      OverlapsIff(SpanOf(hash, g, o), c);
    }
  }

  lemma ForbiddenAnswered(hash: Hash, g: Generation, path: string)
    ensures ForbiddenUnchanged(SpansOf(hash, g, g.ops, path)) <==>
              forall o <- g.ops :: o.path == path && o.forbidden ==>
                o.child.Some? && hash(Cut(g.After(path), o.child.value)) == hash(Cut(g.Before(path), o.place))
  {
    SpansOfFile(hash, g, g.ops, path);
    forall o | o in g.ops && o.path == path ensures SpanOf(hash, g, o) in SpansOf(hash, g, g.ops, path) {}
  }

  lemma FileAnswered(hash: Hash, g: Generation, path: string)
    requires SensibleTrees(g) && SensibleOps(g) && path in g.paths
    ensures FileWithin(FileOf(hash, g, path), g.parent, g.child) <==> KeepsPolicy(hash, g, path)
  {
    Ordered(g.changes(path), g.Before(path), g.After(path), 0, 0);
    forall c | c in g.changes(path)
      ensures ChangeLicensed(SpansOf(hash, g, g.ops, path), c) <==>
                && (exists o <- g.ops :: o.path == path && AllowedBy(o, c))
                && (forall o <- g.ops :: o.path == path && o.forbidden ==> !Hits(o, c))
    {
      ChangeAnswered(hash, g, path, c);
    }
    ForbiddenAnswered(hash, g, path);
  }

  lemma FilesAnswered(hash: Hash, g: Generation)
    requires SensibleTrees(g) && SensibleOps(g)
    ensures AllWithin(FilesOf(hash, g, g.paths), g.parent, g.child) <==> forall p <- g.paths :: KeepsPolicy(hash, g, p)
  {
    var files := FilesOf(hash, g, g.paths);
    forall p | p in g.paths
      ensures FileOf(hash, g, p) in files
      ensures FileWithin(FileOf(hash, g, p), g.parent, g.child) <==> KeepsPolicy(hash, g, p)
    {
      var i :| 0 <= i < |g.paths| && g.paths[i] == p;
      assert files[i] in files;
      FileAnswered(hash, g, p);
    }
    forall f | f in files ensures exists p <- g.paths :: f == FileOf(hash, g, p) {
      var i :| 0 <= i < |files| && files[i] == f;
      assert g.paths[i] in g.paths;
    }
  }

  lemma ForbiddenListed(hash: Hash, g: Generation, o: Operation)
    requires o in g.ops && o.path in g.paths && o.forbidden
    ensures o.id in ForbiddenIds(FilesOf(hash, g, g.paths))
  {
    OperationDeclared(hash, g, o);
    var f :| f in FilesOf(hash, g, g.paths) && f.path == o.path && SpanOf(hash, g, o) in f.spans;
  }

  lemma ForbiddenFrom(hash: Hash, g: Generation, id: string)
    requires id in ForbiddenIds(FilesOf(hash, g, g.paths))
    ensures exists o <- g.ops :: o.forbidden && o.id == id
  {
    var files := FilesOf(hash, g, g.paths);
    var f :| f in files && exists s <- f.spans :: s.forbidden && s.id == id;
    var i :| 0 <= i < |files| && files[i] == f;
    SpansOfFile(hash, g, g.ops, g.paths[i]);
    var s :| s in f.spans && s.forbidden && s.id == id;
    var o :| o in g.ops && o.path == g.paths[i] && s == SpanOf(hash, g, o);
  }

  /** The units with a forbidden operation. */
  lemma ForbiddenUnits(hash: Hash, g: Generation)
    requires SensibleTrees(g) && SensibleOps(g)
    ensures ForbiddenIds(FilesOf(hash, g, g.paths)) == set o <- g.ops | o.forbidden :: o.id
  {
    forall o | o in g.ops && o.forbidden ensures o.id in ForbiddenIds(FilesOf(hash, g, g.paths)) {
      assert SensibleOp(g, o);
      ForbiddenListed(hash, g, o);
    }
    forall id | id in ForbiddenIds(FilesOf(hash, g, g.paths)) ensures exists o <- g.ops :: o.forbidden && o.id == id {
      ForbiddenFrom(hash, g, id);
    }
  }

  lemma PatchAnswered(ev: Evidence, g: Generation, p: Patch, b: PatchBinding, forbidden: set<string>)
    requires b.id == p.id && p.id in ev.patchFiles && ev.patchFiles[p.id] == p.bytes
    requires exists o <- g.ops :: Applies(o, p, ev.decodePatch)
    requires forbidden == set o <- g.ops | o.forbidden :: o.id
    ensures PatchWithin(ev, b, forbidden) <==> TargetAllowed(g, p, ev.decodePatch)
  {
    var o :| o in g.ops && Applies(o, p, ev.decodePatch);
    if o.id in forbidden {
      var other :| other in g.ops && other.forbidden && other.id == o.id;
    }
  }

  lemma PatchAnsweredAt(ev: Evidence, g: Generation, i: nat, forbidden: set<string>)
    requires SensibleTrees(g) && SensiblePatches(g, ev.decodePatch) && Holds(ev, g) && i < |g.patches|
    requires forbidden == set o <- g.ops | o.forbidden :: o.id
    ensures PatchWithin(ev, ev.manifest.value.patches[i], forbidden) <==>
              TargetAllowed(g, g.patches[i], ev.decodePatch)
  {
    assert g.patches[i] in g.patches;
    PatchAnswered(ev, g, g.patches[i], ev.manifest.value.patches[i], forbidden);
  }

  lemma AllPatchesAnswered(ev: Evidence, g: Generation, patches: seq<PatchBinding>, forbidden: set<string>)
    requires |patches| == |g.patches|
    requires forall i :: 0 <= i < |patches| ==>
               (PatchWithin(ev, patches[i], forbidden) <==> TargetAllowed(g, g.patches[i], ev.decodePatch))
    ensures PatchesWithin(ev, patches, forbidden) <==> TargetsAllowed(g, ev.decodePatch)
  {
    forall i | 0 <= i < |patches| ensures patches[i] in patches && g.patches[i] in g.patches {}
  }

  lemma PatchesAnswered(ev: Evidence, g: Generation)
    requires SensibleTrees(g) && SensibleOps(g) && SensiblePatches(g, ev.decodePatch) && Holds(ev, g)
    ensures PatchesWithin(ev, ev.manifest.value.patches, ForbiddenIds(ev.manifest.value.files)) <==>
              TargetsAllowed(g, ev.decodePatch)
  {
    var patches, forbidden := ev.manifest.value.patches, ForbiddenIds(ev.manifest.value.files);
    ForbiddenUnits(ev.hash, g);
    forall i | 0 <= i < |patches|
      ensures PatchWithin(ev, patches[i], forbidden) <==> TargetAllowed(g, g.patches[i], ev.decodePatch)
    {
      PatchAnsweredAt(ev, g, i, forbidden);
    }
    AllPatchesAnswered(ev, g, patches, forbidden);
  }

  lemma ChangesAnswered(ev: Evidence, g: Generation)
    requires SensibleTrees(g) && SensibleOps(g) && SensiblePatches(g, ev.decodePatch) && Holds(ev, g)
    requires RecordsBound(ev)
    ensures ChangesWithin(ev) <==>
              (forall p <- g.paths :: KeepsPolicy(ev.hash, g, p)) && TargetsAllowed(g, ev.decodePatch)
  {
    FilesAnswered(ev.hash, g);
    PatchesAnswered(ev, g);
  }

  /** The verifier's answer on what was written of a generation is about what the
      generation did: Contained if and only if every change lies inside an allowed
      operation's place and hits no forbidden one, every forbidden unit is found
      with bytes that hash alike, no file appears, goes or changes its executable
      bit, and no patch is of a forbidden unit; Violated otherwise. */
  lemma RecordedAnswer(ev: Evidence, g: Generation)
    requires Sensible(g, ev.decodePatch) && Holds(ev, g) && forall b :: IsDigest(ev.hash(b))
    ensures EvidenceBound(ev)
    ensures ChangesWithin(ev) <==>
              (forall p <- g.paths :: KeepsPolicy(ev.hash, g, p)) && TargetsAllowed(g, ev.decodePatch)
  {
    RecordedIsBound(ev, g);
    ChangesAnswered(ev, g);
  }

  /** A generation that kept to its policy is answered Contained. */
  lemma KeptIsContained(ev: Evidence, g: Generation)
    requires Sensible(g, ev.decodePatch) && Holds(ev, g) && forall b :: IsDigest(ev.hash(b))
    requires (forall p <- g.paths :: KeepsPolicy(ev.hash, g, p)) && TargetsAllowed(g, ev.decodePatch)
    ensures EvidenceBound(ev) && ChangesWithin(ev)
  {
    RecordedAnswer(ev, g);
  }
}
