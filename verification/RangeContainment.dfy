/** `attest`: one manifest against the selected source trees, and what its
    answer means for the two trees. */
module RangeContainment {
  import opened Common
  import opened RangeEvidence
  import opened RangePolicy
  import opened RangeSplice

  datatype Status = Contained | Violated | Unverified

  datatype Finding = Finding(code: string, path: string)

  /** The finding codes that report a change rather than missing evidence. */
  predicate ReportsChange(f: Finding) {
    f.code == "outside_mutation" || f.code == "forbidden" || f.code == "metadata" || f.code == "file_set"
  }

  predicate AllReportChange(findings: seq<Finding>) {
    forall f <- findings :: ReportsChange(f)
  }

  function StatusOf(findings: seq<Finding>): Status {
    if findings == [] then Contained
    else if AllReportChange(findings) then Violated
    else Unverified
  }

  /** Lines 141-168. */
  class Attestation {
    var findings: seq<Finding>
    var status: Status

    ghost predicate Valid()
      reads this
    {
      status == StatusOf(findings)
    }

    constructor ()
      ensures Valid() && findings == []
    {
      findings := [];
      status := Contained;
    }

    method Report(code: string, path: string)
      requires Valid()
      modifies this
      ensures Valid()
      ensures findings == old(findings) + [Finding(code, path)]
      ensures status != Contained
      ensures old(status) == Unverified ==> status == Unverified
      ensures AllReportChange(findings) <==>
                old(AllReportChange(findings)) && ReportsChange(Finding(code, path))
    {
      findings := findings + [Finding(code, path)];
      status := if AllReportChange(findings) then Violated else Unverified;
      assert findings[|findings| - 1] in findings;
      assert forall f <- old(findings) :: f in findings;
    }
  }

  /** Over any sequence of reports the status is Contained only while nothing
      was reported, and Unverified is final. */
  lemma StatusLattice(findings: seq<Finding>, more: seq<Finding>)
    ensures StatusOf(findings) == Contained <==> findings == []
    ensures StatusOf(findings) == Unverified ==> StatusOf(findings + more) == Unverified
    ensures more != [] ==> StatusOf(findings + more) != Contained
  {
    if StatusOf(findings) == Unverified {
      var f :| f in findings && !ReportsChange(f);
      assert f in findings + more;
    }
  }

  // ---- per-file conditions ------------------------------------------------

  function BytesOf(tree: Tree, path: string): seq<Byte> {
    if path in tree then tree[path].bytes else []
  }

  function HashOf(hash: seq<Byte> -> string, tree: Tree, path: string): Option<string> {
    if path in tree then Some(hash(tree[path].bytes)) else None
  }

  function ExecutableOf(tree: Tree, path: string): Option<bool> {
    if path in tree then Some(tree[path].executable) else None
  }

  /** Lines 510-514. */
  predicate SourceBound(hash: seq<Byte> -> string, file: FileContainment, left: Tree, right: Tree) {
    && HashOf(hash, left, file.path) == file.parentSha256
    && HashOf(hash, right, file.path) == file.childSha256
    && ExecutableOf(left, file.path) == file.parentExecutable
    && ExecutableOf(right, file.path) == file.childExecutable
  }

  predicate ChildRangeBound(hash: seq<Byte> -> string, span: MutationSpan, after: seq<Byte>) {
    match (span.childStart, span.childEnd, span.childSourceSha256)
    case (None, None, None) => true
    case (Some(start), Some(end), Some(h)) =>
      start <= end <= |after| && hash(after[start..end]) == h
    case _ => false
  }

  /** Lines 541-557, all but the repeated-key test. */
  predicate SpanBound(hash: seq<Byte> -> string, span: MutationSpan, before: seq<Byte>, after: seq<Byte>) {
    && span.id != ""
    && span.kind in {"span", "file", "code"}
    && span.op in {"replace", "set_numeric", "set_enum"}
    && span.start <= span.end <= |before|
    && IsDigest(span.contentHash)
    && hash(before[span.start..span.end]) == span.sourceSha256
    && ChildRangeBound(hash, span, after)
  }

  predicate SpansBound(hash: seq<Byte> -> string, spans: seq<MutationSpan>, before: seq<Byte>, after: seq<Byte>) {
    forall span <- spans :: SpanBound(hash, span, before, after)
  }

  /** Lines 609-610: inside one allowed span on both sides. */
  predicate Allows(span: MutationSpan, c: ByteChange) {
    && !span.forbidden
    && span.start <= c.parentStart && c.parentEnd <= span.end
    && span.childStart.Some? && span.childEnd.Some?
    && span.childStart.value <= c.childStart && c.childEnd <= span.childEnd.value
  }

  /** Lines 613-621. */
  predicate Overlaps(span: MutationSpan, c: ByteChange) {
    && span.forbidden
    && if c.parentStart == c.parentEnd then
         || span.start < c.parentStart < span.end
         || (span.start == span.end && span.start == c.parentStart)
       else c.parentStart < span.end && span.start < c.parentEnd
  }

  predicate ChangeLicensed(spans: seq<MutationSpan>, c: ByteChange) {
    && (exists span <- spans :: Allows(span, c))
    && (forall span <- spans :: !Overlaps(span, c))
  }

  predicate AllLicensed(spans: seq<MutationSpan>, changes: seq<ByteChange>) {
    forall c <- changes :: ChangeLicensed(spans, c)
  }

  lemma LicensedExtends(spans: seq<MutationSpan>, changes: seq<ByteChange>, n: nat)
    requires n < |changes|
    ensures AllLicensed(spans, changes[..n + 1]) <==>
              AllLicensed(spans, changes[..n]) && ChangeLicensed(spans, changes[n])
    ensures AllLicensed(spans, changes[..|changes|]) <==> AllLicensed(spans, changes)
  {
    assert changes[..n + 1] == changes[..n] + [changes[n]];
    assert changes[..|changes|] == changes;
  }

  /** What is wrong with the evidence for one file, if anything. */
  predicate FileBoundTo(hash: seq<Byte> -> string, file: FileContainment, left: Tree, right: Tree) {
    && SafeRelative(file.path)
    && SourceBound(hash, file, left, right)
    && SpansBound(hash, file.spans, BytesOf(left, file.path), BytesOf(right, file.path))
    && Coverage(file.changes, BytesOf(left, file.path), BytesOf(right, file.path), 0, 0)
  }

  predicate ForbiddenUnchanged(spans: seq<MutationSpan>) {
    forall span <- spans :: span.forbidden ==> span.childSourceSha256 == Some(span.sourceSha256)
  }

  /** What one file's change is not licensed to do, if anything. */
  predicate FileWithin(file: FileContainment, left: Tree, right: Tree) {
    && file.path in left && file.path in right
    && file.parentExecutable == file.childExecutable
    && ForbiddenUnchanged(file.spans)
    && AllLicensed(file.spans, file.changes)
  }

  // ---- patches ------------------------------------------------------------

  function PatchTarget(body: PatchBody): OpKey {
    OpKey(if body.mutationId.Some? then body.mutationId.value else "",
          if body.op.Some? then body.op.value else "")
  }

  predicate PatchBound(ev: Evidence, patch: PatchBinding, ops: set<OpKey>, childOps: set<OpKey>) {
    && SafeRelative(patch.id) && '/' !in patch.id && IsDigest(patch.sha256)
    && patch.id in ev.patchFiles
    && ev.hash(ev.patchFiles[patch.id]) == patch.sha256
    && var body := ev.decodePatch(ev.patchFiles[patch.id]);
    && body.Some?
    && body.value.id == Some(patch.id)
    && PatchTarget(body.value) in ops
    && PatchTarget(body.value) in childOps
  }

  predicate PatchWithin(ev: Evidence, patch: PatchBinding, forbidden: set<string>) {
    patch.id in ev.patchFiles && ev.decodePatch(ev.patchFiles[patch.id]).Some? ==>
      PatchTarget(ev.decodePatch(ev.patchFiles[patch.id]).value).id !in forbidden
  }

  function PatchIds(patches: seq<PatchBinding>): (ids: seq<string>)
    ensures |ids| == |patches|
  {
    seq(|patches|, i requires 0 <= i < |patches| => patches[i].id)
  }

  function IdSet(patches: seq<PatchBinding>): set<string> {
    set patch <- patches :: patch.id
  }

  predicate ExperimentBound(ev: Evidence, patches: seq<PatchBinding>) {
    && ev.experiment.Decoded?
    && var x := ev.experiment.value;
    && x.epochId == Some(ev.epoch)
    && x.generationId == Some(ev.childId)
    && x.parentGenerationId == Some(ev.parentId)
    && x.patchIds == Some(PatchIds(patches))
    && |IdSet(patches)| == |patches|
  }

  // ---- the whole answer ---------------------------------------------------

  predicate SafeId(id: string) { SafeRelative(id) && '/' !in id }

  /** What the records say before the trees are read. */
  ghost predicate ManifestBound(ev: Evidence) {
    && SafeId(ev.epoch) && SafeId(ev.parentId) && SafeId(ev.childId)
    && ev.manifest.Decoded?
    && var m := ev.manifest.value;
    && m.formatVersion == 1
    && m.patches != [] && (exists file <- m.files :: file.spans != [])
    && m.epochId == ev.epoch && m.parentGenerationId == ev.parentId && m.generationId == ev.childId
    && ev.roots.Some?
    && SafeRelative(m.parentSource) && SafeRelative(m.childSource)
    && ev.roots.value.parent == Some(m.parentSource) && ev.roots.value.child == Some(m.childSource)
  }

  /** The evidence is complete and consistent up to reading the trees. */
  ghost predicate RecordsBound(ev: Evidence) {
    && ManifestBound(ev)
    && ev.parentTree.Some? && ev.childTree.Some?
    && PolicyBound(ev, ev.manifest.value, ev.parentTree.value)
  }

  ghost predicate InventoryComplete(files: seq<FileContainment>, left: Tree, right: Tree) {
    && left.Keys + right.Keys == RecordedPaths(files)
    && |RecordedPaths(files)| == |files|
  }

  function RecordedPaths(files: seq<FileContainment>): set<string> {
    set f <- files :: f.path
  }

  function OpKeys(files: seq<FileContainment>): set<OpKey> {
    set f <- files, s <- f.spans :: OpKey(s.id, s.op)
  }

  function ChildOpKeys(files: seq<FileContainment>): set<OpKey> {
    set f <- files, s <- f.spans | s.childStart.Some? :: OpKey(s.id, s.op)
  }

  function ForbiddenIds(files: seq<FileContainment>): set<string> {
    set f <- files, s <- f.spans | s.forbidden :: s.id
  }

  function NotedIn(files: seq<FileContainment>): Noted {
    Noted(OpKeys(files), ChildOpKeys(files), ForbiddenIds(files))
  }

  /** Nothing is missing, unreadable or inconsistent. */
  ghost predicate EvidenceBound(ev: Evidence) {
    && RecordsBound(ev)
    && var m, left, right := ev.manifest.value, ev.parentTree.value, ev.childTree.value;
    && InventoryComplete(m.files, left, right)
    && AllBound(ev.hash, m.files, left, right)
    && ExperimentBound(ev, m.patches)
    && PatchesBound(ev, m.patches, OpKeys(m.files), ChildOpKeys(m.files))
  }

  /** Every recorded change is licensed. */
  ghost predicate ChangesWithin(ev: Evidence)
    requires RecordsBound(ev)
  {
    var m, left, right := ev.manifest.value, ev.parentTree.value, ev.childTree.value;
    && AllWithin(m.files, left, right)
    && PatchesWithin(ev, m.patches, ForbiddenIds(m.files))
  }

  // ---- the checks ---------------------------------------------------------

  /** How a check moves the findings: they stay reports of changes exactly when
      the evidence is `bound`, and stay empty exactly when also `within`. */
  ghost predicate Outcome(was: seq<Finding>, now: seq<Finding>, bound: bool, within: bool) {
    && (AllReportChange(now) <==> AllReportChange(was) && bound)
    && (bound ==> (now == [] <==> was == [] && within))
  }

  function SpanKeys(spans: seq<MutationSpan>): set<OpKey> {
    set s <- spans :: OpKey(s.id, s.op)
  }

  function ChildKeys(spans: seq<MutationSpan>): set<OpKey> {
    set s <- spans | s.childStart.Some? :: OpKey(s.id, s.op)
  }

  function Forbidden(spans: seq<MutationSpan>): set<string> {
    set s <- spans | s.forbidden :: s.id
  }

  /** What the spans seen so far declare: operations, operations that still
      resolve in the child, and forbidden units. */
  datatype Noted = Noted(ops: set<OpKey>, childOps: set<OpKey>, forbidden: set<string>)

  function AddSpan(x: Noted, span: MutationSpan): Noted {
    Noted(x.ops + {KeyOf(span)},
          if span.childStart.Some? then x.childOps + {KeyOf(span)} else x.childOps,
          if span.forbidden then x.forbidden + {span.id} else x.forbidden)
  }

  function AddSpans(x: Noted, spans: seq<MutationSpan>): Noted {
    if spans == [] then x else AddSpan(AddSpans(x, spans[..|spans| - 1]), spans[|spans| - 1])
  }

  lemma {:induction false} AddSpansSets(x: Noted, spans: seq<MutationSpan>)
    ensures AddSpans(x, spans) ==
              Noted(x.ops + SpanKeys(spans), x.childOps + ChildKeys(spans), x.forbidden + Forbidden(spans))
  {
    if spans != [] {
      var n := |spans| - 1;
      AddSpansSets(x, spans[..n]);
      SpanSets(spans, n);
      assert spans[..n + 1] == spans;
    }
  }

  lemma SpanSets(spans: seq<MutationSpan>, n: nat)
    requires n < |spans|
    ensures SpanKeys(spans[..n + 1]) == SpanKeys(spans[..n]) + {KeyOf(spans[n])}
    ensures ChildKeys(spans[..n + 1]) ==
              ChildKeys(spans[..n]) + if spans[n].childStart.Some? then {KeyOf(spans[n])} else {}
    ensures Forbidden(spans[..n + 1]) == Forbidden(spans[..n]) + if spans[n].forbidden then {spans[n].id} else {}
  {
    assert spans[..n + 1] == spans[..n] + [spans[n]];
  }

  lemma SpansBoundStep(hash: seq<Byte> -> string, spans: seq<MutationSpan>, n: nat, before: seq<Byte>, after: seq<Byte>)
    requires n < |spans|
    ensures SpansBound(hash, spans[..n + 1], before, after) <==>
              SpansBound(hash, spans[..n], before, after) && SpanBound(hash, spans[n], before, after)
  {
    assert spans[..n + 1] == spans[..n] + [spans[n]];
  }

  function KeyOf(span: MutationSpan): OpKey { OpKey(span.id, span.op) }

  /** No operation repeats an earlier one, in the list or before it. */
  ghost predicate KeysFresh(spans: seq<MutationSpan>, ops: set<OpKey>) {
    && SpanKeys(spans) !! ops
    && forall i, j :: 0 <= i < j < |spans| ==> KeyOf(spans[i]) != KeyOf(spans[j])
  }

  lemma KeysFreshStep(spans: seq<MutationSpan>, n: nat, ops: set<OpKey>)
    requires n < |spans|
    ensures KeysFresh(spans[..n + 1], ops) <==>
              KeysFresh(spans[..n], ops) && KeyOf(spans[n]) !in ops + SpanKeys(spans[..n])
  {
    var more, init := spans[..n + 1], spans[..n];
    assert more == init + [spans[n]];
    assert SpanKeys(more) == SpanKeys(init) + {KeyOf(spans[n])};
    if KeyOf(spans[n]) in SpanKeys(init) {
      var i :| 0 <= i < n && KeyOf(init[i]) == KeyOf(spans[n]);
      assert KeyOf(more[i]) == KeyOf(more[n]);
    }
    forall i | 0 <= i < n ensures more[i] == init[i] && KeyOf(init[i]) in SpanKeys(init) {}
  }

  ghost predicate SpansValid(hash: seq<Byte> -> string, spans: seq<MutationSpan>, before: seq<Byte>, after: seq<Byte>,
                             ops: set<OpKey>)
  {
    SpansBound(hash, spans, before, after) && KeysFresh(spans, ops)
  }

  lemma SpansValidStep(hash: seq<Byte> -> string, spans: seq<MutationSpan>, n: nat, before: seq<Byte>,
                       after: seq<Byte>, ops: set<OpKey>)
    requires n < |spans|
    ensures SpansValid(hash, spans[..n + 1], before, after, ops) <==>
              && SpansValid(hash, spans[..n], before, after, ops)
              && SpanBound(hash, spans[n], before, after)
              && KeyOf(spans[n]) !in ops + SpanKeys(spans[..n])
    ensures SpansValid(hash, spans[..|spans|], before, after, ops) <==> SpansValid(hash, spans, before, after, ops)
  {
    SpansBoundStep(hash, spans, n, before, after);
    KeysFreshStep(spans, n, ops);
    assert spans[..|spans|] == spans;
  }

  /** Lines 540-566, one span. */
  method CheckSpan(a: Attestation, hash: seq<Byte> -> string, path: string, span: MutationSpan,
                   before: seq<Byte>, after: seq<Byte>, ops: set<OpKey>)
    returns (fine: bool)
    requires a.Valid()
    modifies a
    ensures a.Valid()
    ensures fine <==> KeyOf(span) !in ops && SpanBound(hash, span, before, after)
    ensures Outcome(old(a.findings), a.findings, fine, true)
  {
    fine := KeyOf(span) !in ops && SpanBound(hash, span, before, after);
    if !fine {
      a.Report("mutation_snapshot", path);
    }
  }

  /** Lines 539-575. */
  method CheckSpans(a: Attestation, hash: seq<Byte> -> string, path: string, spans: seq<MutationSpan>,
                    before: seq<Byte>, after: seq<Byte>, x: Noted)
    returns (valid: bool, x': Noted)
    requires a.Valid()
    modifies a
    ensures a.Valid()
    ensures valid <==> SpansValid(hash, spans, before, after, x.ops)
    ensures Outcome(old(a.findings), a.findings, valid, true)
    ensures x' == AddSpans(x, spans)
  {
    valid, x' := true, x;
    for n := 0 to |spans|
      invariant a.Valid()
      invariant valid <==> SpansValid(hash, spans[..n], before, after, x.ops)
      invariant Outcome(old(a.findings), a.findings, valid, true)
      invariant x' == AddSpans(x, spans[..n])
    {
      AddSpansSets(x, spans[..n]);
      SpansValidStep(hash, spans, n, before, after, x.ops);
      assert spans[..n + 1][..n] == spans[..n];
      var fine := CheckSpan(a, hash, path, spans[n], before, after, x'.ops);
      valid := valid && fine;
      x' := AddSpan(x', spans[n]);
    }
    assert spans[..|spans|] == spans;
  }

  /** Lines 601-627, for a change whose coordinates are in order. */
  method CheckChange(a: Attestation, path: string, spans: seq<MutationSpan>, c: ByteChange,
                     before: seq<Byte>, after: seq<Byte>, po: nat, co: nat)
    requires a.Valid()
    requires Placed(c, po, co, |before|, |after|)
    modifies a
    ensures a.Valid()
    ensures Outcome(old(a.findings), a.findings,
                    before[po..c.parentStart] == after[co..c.childStart], ChangeLicensed(spans, c))
  {
    if before[po..c.parentStart] != after[co..c.childStart] {
      a.Report("byte_coverage", path);
    }
    if !exists span <- spans :: Allows(span, c) {
      a.Report("outside_mutation", path);
    }
    if exists span <- spans :: Overlaps(span, c) {
      a.Report("forbidden", path);
    }
  }

  /** Lines 585-637: walk the change list with a parent and a child offset. */
  method CheckChanges(a: Attestation, path: string, spans: seq<MutationSpan>, changes: seq<ByteChange>,
                      before: seq<Byte>, after: seq<Byte>)
    requires a.Valid()
    modifies a
    ensures a.Valid()
    ensures Outcome(old(a.findings), a.findings, Coverage(changes, before, after, 0, 0),
                    AllLicensed(spans, changes))
  {
    var po: nat, co: nat, n: nat := 0, 0, 0;
    ghost var covered := true;
    while n < |changes| && Placed(changes[n], po, co, |before|, |after|)
      invariant n <= |changes| && po <= |before| && co <= |after|
      invariant a.Valid()
      invariant Outcome(old(a.findings), a.findings, covered, AllLicensed(spans, changes[..n]))
      invariant Coverage(changes, before, after, 0, 0) <==> covered && Coverage(changes[n..], before, after, po, co)
    {
      var c := changes[n];
      assert changes[n..][1..] == changes[n + 1..];
      LicensedExtends(spans, changes, n);
      CheckChange(a, path, spans, c, before, after, po, co);
      covered := covered && before[po..c.parentStart] == after[co..c.childStart];
      po, co := c.parentEnd, c.childEnd;
      n := n + 1;
    }
    assert n == |changes| ==> changes[..n] == changes;
    if n < |changes| {
      a.Report("byte_coverage", path);
    }
    if before[po..] != after[co..] {
      a.Report("byte_coverage", path);
    }
  }

  /** The body of the loop at lines 503-638. */
  method CheckFile(a: Attestation, hash: seq<Byte> -> string, file: FileContainment, left: Tree, right: Tree, x: Noted)
    returns (x': Noted)
    requires a.Valid()
    modifies a
    ensures a.Valid()
    ensures Outcome(old(a.findings), a.findings,
                    FileBoundTo(hash, file, left, right) && KeysFresh(file.spans, x.ops), FileWithin(file, left, right))
    ensures FileBoundTo(hash, file, left, right) ==> x' == AddSpans(x, file.spans)
  {
    x' := x;
    if !SafeRelative(file.path) {
      a.Report("manifest_path", file.path);
      return;
    }
    if !SourceBound(hash, file, left, right) {
      a.Report("source_binding", file.path);
      return;
    }
    if file.path !in left || file.path !in right {
      a.Report("file_set", file.path);
    }
    if file.parentExecutable != file.childExecutable {
      a.Report("metadata", file.path);
    }
    var before, after := BytesOf(left, file.path), BytesOf(right, file.path);
    var valid;
    valid, x' := CheckSpans(a, hash, file.path, file.spans, before, after, x);
    if !valid {
      return;
    }
    if !ForbiddenUnchanged(file.spans) {
      a.Report("forbidden", file.path);
    }
    CheckChanges(a, file.path, file.spans, file.changes, before, after);
  }

  lemma FileSetsExtend(files: seq<FileContainment>, n: nat)
    requires n < |files|
    ensures OpKeys(files[..n + 1]) == OpKeys(files[..n]) + SpanKeys(files[n].spans)
    ensures ChildOpKeys(files[..n + 1]) == ChildOpKeys(files[..n]) + ChildKeys(files[n].spans)
    ensures ForbiddenIds(files[..n + 1]) == ForbiddenIds(files[..n]) + Forbidden(files[n].spans)
  {
    assert files[..n + 1] == files[..n] + [files[n]];
  }

  lemma {:induction false} DeclaredKeys(files: seq<FileContainment>, n: nat)
    requires n <= |files|
    ensures Keys(Declared(files[..n])) == OpKeys(files[..n])
  {
    if n > 0 {
      var init, last := Declared(files[..n - 1]), Owned(files[n - 1].path, files[n - 1].spans);
      DeclaredKeys(files, n - 1);
      FileSetsExtend(files, n - 1);
      assert files[..n][..n - 1] == files[..n - 1];
      OwnedKeys(files[n - 1].path, files[n - 1].spans);
      KeysJoin(init, last);
    }
  }

  lemma OwnedKeys(path: string, spans: seq<MutationSpan>)
    ensures Keys(Owned(path, spans)) == SpanKeys(spans)
  {
    forall k | k in SpanKeys(spans) ensures k in Keys(Owned(path, spans)) {
      var i :| 0 <= i < |spans| && OpKey(spans[i].id, spans[i].op) == k;
      assert Owned(path, spans)[i].Key() == k;
    }
  }

  lemma KeysJoin(a: seq<Declaration>, b: seq<Declaration>)
    ensures Keys(a + b) == Keys(a) + Keys(b)
  {
    forall k | k in Keys(b) ensures k in Keys(a + b) {
      var i :| 0 <= i < |b| && b[i].Key() == k;
      assert (a + b)[|a| + i].Key() == k;
    }
    forall k | k in Keys(a) ensures k in Keys(a + b) {
      var i :| 0 <= i < |a| && a[i].Key() == k;
      assert (a + b)[i].Key() == k;
    }
  }

  ghost predicate Unrepeated(ds: seq<Declaration>) {
    forall i, j :: 0 <= i < j < |ds| ==> ds[i].Key() != ds[j].Key()
  }

  /** One more file's operations repeat none exactly when they are fresh. */
  lemma UnrepeatedStep(files: seq<FileContainment>, n: nat)
    requires n < |files|
    ensures Unrepeated(Declared(files[..n + 1])) <==>
              Unrepeated(Declared(files[..n])) && KeysFresh(files[n].spans, OpKeys(files[..n]))
  {
    var init, own := Declared(files[..n]), Owned(files[n].path, files[n].spans);
    assert files[..n + 1][..n] == files[..n];
    DeclaredKeys(files, n);
    OwnedKeys(files[n].path, files[n].spans);
    UnrepeatedJoin(init, own);
    assert forall i :: 0 <= i < |own| ==> own[i].Key() == KeyOf(files[n].spans[i]);
  }

  lemma UnrepeatedJoin(a: seq<Declaration>, b: seq<Declaration>)
    ensures Unrepeated(a + b) <==> Unrepeated(a) && Unrepeated(b) && Keys(a) !! Keys(b)
  {
    var all := a + b;
    if Unrepeated(all) {
      forall i, j | 0 <= i < j < |a| ensures a[i].Key() != a[j].Key() { assert all[i].Key() != all[j].Key(); }
      forall i, j | 0 <= i < j < |b| ensures b[i].Key() != b[j].Key() {
        assert all[|a| + i].Key() != all[|a| + j].Key();
      }
      forall i, j | 0 <= i < |a| && 0 <= j < |b| ensures a[i].Key() != b[j].Key() {
        assert all[i].Key() != all[|a| + j].Key();
      }
    } else {
      var i, j :| 0 <= i < j < |all| && all[i].Key() == all[j].Key();
      assert i < |a| ==> all[i].Key() in Keys(a);
      assert j >= |a| ==> b[j - |a|].Key() in Keys(b);
    }
  }

  predicate AllBound(hash: seq<Byte> -> string, files: seq<FileContainment>, left: Tree, right: Tree) {
    forall f <- files :: FileBoundTo(hash, f, left, right)
  }

  predicate AllWithin(files: seq<FileContainment>, left: Tree, right: Tree) {
    forall f <- files :: FileWithin(f, left, right)
  }

  lemma AllExtends(hash: seq<Byte> -> string, files: seq<FileContainment>, n: nat, left: Tree, right: Tree)
    requires n < |files|
    ensures AllBound(hash, files[..n + 1], left, right) <==>
              AllBound(hash, files[..n], left, right) && FileBoundTo(hash, files[n], left, right)
    ensures AllWithin(files[..n + 1], left, right) <==>
              AllWithin(files[..n], left, right) && FileWithin(files[n], left, right)
  {
    assert files[..n + 1] == files[..n] + [files[n]];
  }

  /** What one more file adds to the conditions on all. */
  lemma FileStep(hash: seq<Byte> -> string, files: seq<FileContainment>, n: nat, left: Tree, right: Tree, x: Noted)
    requires n < |files| && (AllBound(hash, files[..n], left, right) ==> x == NotedIn(files[..n]))
    ensures AllBound(hash, files[..n + 1], left, right) && Unrepeated(Declared(files[..n + 1])) <==>
              && AllBound(hash, files[..n], left, right) && Unrepeated(Declared(files[..n]))
              && FileBoundTo(hash, files[n], left, right) && KeysFresh(files[n].spans, x.ops)
    ensures AllWithin(files[..n + 1], left, right) <==>
              AllWithin(files[..n], left, right) && FileWithin(files[n], left, right)
    ensures AllBound(hash, files[..n + 1], left, right) ==>
              FileBoundTo(hash, files[n], left, right) && AddSpans(x, files[n].spans) == NotedIn(files[..n + 1])
  {
    UnrepeatedStep(files, n);
    FileSetsExtend(files, n);
    AllExtends(hash, files, n, left, right);
    AddSpansSets(NotedIn(files[..n]), files[n].spans);
  }

  /** Lines 500-638. */
  method CheckFiles(a: Attestation, hash: seq<Byte> -> string, files: seq<FileContainment>, left: Tree, right: Tree)
    returns (x: Noted)
    requires a.Valid()
    modifies a
    ensures a.Valid()
    ensures Outcome(old(a.findings), a.findings,
                    AllBound(hash, files, left, right) && Unrepeated(Declared(files)), AllWithin(files, left, right))
    ensures AllBound(hash, files, left, right) ==> x == NotedIn(files)
  {
    x := Noted({}, {}, {});
    for n := 0 to |files|
      invariant a.Valid()
      invariant Outcome(old(a.findings), a.findings,
                        AllBound(hash, files[..n], left, right) && Unrepeated(Declared(files[..n])),
                        AllWithin(files[..n], left, right))
      invariant AllBound(hash, files[..n], left, right) ==> x == NotedIn(files[..n])
    {
      FileStep(hash, files, n, left, right, x);
      x := CheckFile(a, hash, files[n], left, right, x);
    }
    assert files[..|files|] == files;
  }

  /** The body of the loop at lines 696-743. */
  method CheckPatch(a: Attestation, ev: Evidence, patch: PatchBinding, x: Noted)
    requires a.Valid()
    modifies a
    ensures a.Valid()
    ensures Outcome(old(a.findings), a.findings,
                    PatchBound(ev, patch, x.ops, x.childOps), PatchWithin(ev, patch, x.forbidden))
  {
    if !SafeRelative(patch.id) || '/' in patch.id || !IsDigest(patch.sha256) {
      a.Report("patch_binding", "");
      return;
    }
    if patch.id !in ev.patchFiles {
      a.Report("patch_binding", "");
      return;
    }
    var bytes := ev.patchFiles[patch.id];
    if ev.hash(bytes) != patch.sha256 {
      a.Report("patch_binding", "");
    }
    var body := ev.decodePatch(bytes);
    if body.None? {
      a.Report("patch_binding", "");
      return;
    }
    var target := PatchTarget(body.value);
    if body.value.id != Some(patch.id) || target !in x.ops {
      a.Report("patch_binding", "");
    } else if target !in x.childOps {
      a.Report("mutation_snapshot", "");
    } else if target.id in x.forbidden {
      a.Report("forbidden", "");
    }
  }

  predicate PatchesBound(ev: Evidence, patches: seq<PatchBinding>, ops: set<OpKey>, childOps: set<OpKey>) {
    forall p <- patches :: PatchBound(ev, p, ops, childOps)
  }

  predicate PatchesWithin(ev: Evidence, patches: seq<PatchBinding>, forbidden: set<string>) {
    forall p <- patches :: PatchWithin(ev, p, forbidden)
  }

  /** Lines 658-744. */
  method VerifyPatches(a: Attestation, ev: Evidence, patches: seq<PatchBinding>, x: Noted)
    requires a.Valid()
    modifies a
    ensures a.Valid()
    ensures Outcome(old(a.findings), a.findings,
                    ExperimentBound(ev, patches) && PatchesBound(ev, patches, x.ops, x.childOps),
                    PatchesWithin(ev, patches, x.forbidden))
  {
    if !ev.experiment.Decoded? {
      a.Report("patch_binding", "");
      return;
    }
    var e := ev.experiment.value;
    if e.epochId != Some(ev.epoch) || e.generationId != Some(ev.childId) || e.parentGenerationId != Some(ev.parentId) {
      a.Report("manifest_coordinates", "");
    }
    if e.patchIds != Some(PatchIds(patches)) || |IdSet(patches)| != |patches| {
      a.Report("patch_binding", "");
    }
    assert Outcome(old(a.findings), a.findings, ExperimentBound(ev, patches), true);
    for n := 0 to |patches|
      invariant a.Valid()
      invariant Outcome(old(a.findings), a.findings,
                        ExperimentBound(ev, patches) && PatchesBound(ev, patches[..n], x.ops, x.childOps),
                        PatchesWithin(ev, patches[..n], x.forbidden))
    {
      assert patches[..n + 1] == patches[..n] + [patches[n]];
      CheckPatch(a, ev, patches[n], x);
    }
    assert patches[..|patches|] == patches;
  }
}
