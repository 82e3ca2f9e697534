/** The verifier's answer, and what each answer means for the two trees. */
module RangeAttest {
  import opened Common
  import opened RangeEvidence
  import opened RangePolicy
  import opened RangeSplice
  import opened RangeContainment

  /** Lines 383-648. The three answers partition on two questions: is the
      evidence complete and consistent, and is every recorded change licensed? */
  method Attest(ev: Evidence) returns (a: Attestation)
    ensures fresh(a) && a.Valid()
    ensures a.status == Unverified <==> !EvidenceBound(ev)
    ensures a.status == Violated <==> EvidenceBound(ev) && !ChangesWithin(ev)
    ensures a.status == Contained <==> EvidenceBound(ev) && ChangesWithin(ev)
  {
    a := new Attestation();
    var ready := CheckRecords(a, ev);
    if ready {
      CompareTrees(a, ev);
    }
  }

  /** Lines 392-482: the records, up to the captured policy. */
  method CheckRecords(a: Attestation, ev: Evidence) returns (ready: bool)
    requires a.Valid() && a.findings == []
    modifies a
    ensures a.Valid()
    ensures !ready ==> !RecordsBound(ev) && !AllReportChange(a.findings)
    ensures ready ==>
              && ev.manifest.Decoded? && ev.parentTree.Some? && ev.childTree.Some?
              && PolicyBound(ev, ev.manifest.value, ev.parentTree.value)
              && Outcome([], a.findings, RecordsBound(ev), true)
  {
    ready := CheckManifest(a, ev);
    if ready {
      if ev.parentTree.None? || ev.childTree.None? {
        a.Report("source_unreadable", "");
        return false;
      }
      ready := VerifyPolicy(ev, ev.manifest.value, ev.parentTree.value);
      if !ready {
        a.Report("mutation_policy", "");
      }
    }
  }

  /** Lines 392-469. Some findings do not end the check at once. */
  method CheckManifest(a: Attestation, ev: Evidence) returns (ready: bool)
    requires a.Valid() && a.findings == []
    modifies a
    ensures a.Valid()
    ensures !ready ==> !ManifestBound(ev) && !AllReportChange(a.findings)
    ensures ready ==> ev.manifest.Decoded? && Outcome([], a.findings, ManifestBound(ev), true)
  {
    ready := false;
    if !SafeId(ev.epoch) || !SafeId(ev.parentId) || !SafeId(ev.childId) {
      a.Report("manifest_coordinates", "");
      return;
    }
    if !ev.manifest.Decoded? {
      a.Report(if ev.manifest.Malformed? then "manifest_shape" else "manifest_missing", "");
      return;
    }
    var m := ev.manifest.value;
    if m.formatVersion != 1 {
      a.Report("manifest_version", "");
      return;
    }
    if m.patches == [] || !exists file <- m.files :: file.spans != [] {
      a.Report("mutation_snapshot", "");
    }
    if m.epochId != ev.epoch || m.parentGenerationId != ev.parentId || m.generationId != ev.childId {
      a.Report("manifest_coordinates", "");
    }
    if ev.roots.None? {
      a.Report("source_unreadable", "");
      return;
    }
    if !SafeRelative(m.parentSource) || !SafeRelative(m.childSource)
       || ev.roots.value.parent != Some(m.parentSource) || ev.roots.value.child != Some(m.childSource)
    {
      a.Report("manifest_source", "");
      return;
    }
    ready := true;
  }

  /** Lines 483-647, once the policy is bound. */
  method CompareTrees(a: Attestation, ev: Evidence)
    requires a.Valid()
    requires ev.manifest.Decoded? && ev.parentTree.Some? && ev.childTree.Some?
    requires PolicyBound(ev, ev.manifest.value, ev.parentTree.value)
    requires Outcome([], a.findings, RecordsBound(ev), true)
    modifies a
    ensures a.Valid()
    ensures AllReportChange(a.findings) <==> EvidenceBound(ev)
    ensures EvidenceBound(ev) ==> (a.findings == [] <==> ChangesWithin(ev))
  {
    var m, left, right := ev.manifest.value, ev.parentTree.value, ev.childTree.value;
    ghost var f0 := a.findings;
    CheckInventory(a, m.files, left, right);
    ghost var f1 := a.findings;
    var noted := CheckFiles(a, ev.hash, m.files, left, right);
    ghost var f2 := a.findings;
    VerifyPatches(a, ev, m.patches, noted);
    TreesDecided(ev, noted, f0, f1, f2, a.findings);
  }

  /** Lines 483-499. */
  method CheckInventory(a: Attestation, files: seq<FileContainment>, left: Tree, right: Tree)
    requires a.Valid()
    modifies a
    ensures a.Valid()
    ensures Outcome(old(a.findings), a.findings, InventoryComplete(files, left, right), true)
  {
    if left.Keys + right.Keys != RecordedPaths(files) || |RecordedPaths(files)| != |files| {
      a.Report("source_inventory", "");
    }
  }

  /** The four stages together. */
  lemma TreesDecided(ev: Evidence, noted: Noted, f0: seq<Finding>, f1: seq<Finding>, f2: seq<Finding>, f3: seq<Finding>)
    requires ev.manifest.Decoded? && ev.parentTree.Some? && ev.childTree.Some?
    requires PolicyBound(ev, ev.manifest.value, ev.parentTree.value)
    requires Outcome([], f0, RecordsBound(ev), true)
    requires Outcome(f0, f1, InventoryComplete(ev.manifest.value.files, ev.parentTree.value, ev.childTree.value), true)
    requires FilesOutcome(ev, noted, f1, f2) && PatchesOutcome(ev, noted, f2, f3)
    ensures AllReportChange(f3) <==> EvidenceBound(ev)
    ensures EvidenceBound(ev) ==> (f3 == [] <==> ChangesWithin(ev))
  {
  }

  ghost predicate FilesOutcome(ev: Evidence, noted: Noted, f1: seq<Finding>, f2: seq<Finding>)
    requires ev.manifest.Decoded? && ev.parentTree.Some? && ev.childTree.Some?
  {
    var files, left, right := ev.manifest.value.files, ev.parentTree.value, ev.childTree.value;
    && Outcome(f1, f2, AllBound(ev.hash, files, left, right) && Unrepeated(Declared(files)),
               AllWithin(files, left, right))
    && (AllBound(ev.hash, files, left, right) ==> noted == NotedIn(files))
  }

  ghost predicate PatchesOutcome(ev: Evidence, noted: Noted, f2: seq<Finding>, f3: seq<Finding>)
    requires ev.manifest.Decoded?
  {
    var patches := ev.manifest.value.patches;
    Outcome(f2, f3, ExperimentBound(ev, patches) && PatchesBound(ev, patches, noted.ops, noted.childOps),
            PatchesWithin(ev, patches, noted.forbidden))
  }

  // ---- what Contained means -----------------------------------------------

  /** What an accepted file's checks leave to reason with. */
  lemma ContainedFile(ev: Evidence, f: FileContainment)
    requires EvidenceBound(ev) && ChangesWithin(ev) && f in ev.manifest.value.files
    ensures f.path in ev.parentTree.value && f.path in ev.childTree.value
    ensures Coverage(f.changes, ev.parentTree.value[f.path].bytes, ev.childTree.value[f.path].bytes, 0, 0)
    ensures SpansBound(ev.hash, f.spans, ev.parentTree.value[f.path].bytes, ev.childTree.value[f.path].bytes)
    ensures AllLicensed(f.spans, f.changes)
    ensures ev.parentTree.value[f.path].executable == ev.childTree.value[f.path].executable
  {
    var left, right := ev.parentTree.value, ev.childTree.value;
    assert FileBoundTo(ev.hash, f, left, right) && FileWithin(f, left, right);
  }

  /** Both trees hold the same files with the same executable bits, and the
      manifest records each of them. */
  lemma ContainedInventory(ev: Evidence, path: string)
    requires EvidenceBound(ev) && ChangesWithin(ev)
    ensures path in ev.parentTree.value <==> path in ev.childTree.value
    ensures path in ev.parentTree.value ==>
              && ev.parentTree.value[path].executable == ev.childTree.value[path].executable
              && exists f <- ev.manifest.value.files :: f.path == path
  {
    var m, left, right := ev.manifest.value, ev.parentTree.value, ev.childTree.value;
    if path in left || path in right {
      assert path in RecordedPaths(m.files);
      var f :| f in m.files && f.path == path;
      ContainedFile(ev, f);
    }
  }

  /** A parent offset inside some allowed span. */
  predicate InAllowed(spans: seq<MutationSpan>, i: nat) {
    exists s <- spans :: !s.forbidden && s.start <= i < s.end
  }

  predicate InAllowedChild(spans: seq<MutationSpan>, j: nat) {
    exists s <- spans ::
      !s.forbidden && s.childStart.Some? && s.childEnd.Some? && s.childStart.value <= j < s.childEnd.value
  }

  /** A byte-preserving, strictly increasing partial map between two files. */
  ghost predicate CarriesOver(image: map<nat, nat>, before: seq<Byte>, after: seq<Byte>) {
    && (forall i <- image :: i < |before| && image[i] < |after| && before[i] == after[image[i]])
    && (forall i, k :: i in image && k in image && i < k ==> image[i] < image[k])
  }

  lemma LicensedSides(spans: seq<MutationSpan>, changes: seq<ByteChange>, i: nat)
    requires AllLicensed(spans, changes)
    ensures !InAllowed(spans, i) ==> Kept(changes, i)
    ensures !InAllowedChild(spans, i) ==> Kept(Reversed(changes), i)
  {
    forall c | c in changes && (c.parentStart <= i < c.parentEnd || c.childStart <= i < c.childEnd)
      ensures c.parentStart <= i < c.parentEnd ==> InAllowed(spans, i)
      ensures c.childStart <= i < c.childEnd ==> InAllowedChild(spans, i)
    {
      assert ChangeLicensed(spans, c);
      var s :| s in spans && Allows(s, c);
    }
    var rev := Reversed(changes);
    forall r | r in rev ensures !InAllowedChild(spans, i) ==> !(r.parentStart <= i < r.parentEnd) {
      var k :| 0 <= k < |rev| && rev[k] == r;
      assert changes[k] in changes;
    }
  }

  /** Soundness for one file: a byte-preserving, order-preserving matching that
      is total on the parent bytes outside every allowed span and onto the child
      bytes outside every allowed span. */
  lemma ContainedBytes(ev: Evidence, f: FileContainment) returns (image: map<nat, nat>)
    requires EvidenceBound(ev) && ChangesWithin(ev) && f in ev.manifest.value.files
    ensures f.path in ev.parentTree.value && f.path in ev.childTree.value
    ensures CarriesOver(image, ev.parentTree.value[f.path].bytes, ev.childTree.value[f.path].bytes)
    ensures forall i: nat | i < |ev.parentTree.value[f.path].bytes| && !InAllowed(f.spans, i) :: i in image
    ensures forall j: nat | j < |ev.childTree.value[f.path].bytes| && !InAllowedChild(f.spans, j) :: j in image.Values
  {
    var left, right := ev.parentTree.value, ev.childTree.value;
    ContainedFile(ev, f);
    var before, after := left[f.path].bytes, right[f.path].bytes;
    image := KeptMap(f.changes, before, after);
    forall i: nat | i < |before| && !InAllowed(f.spans, i) ensures i in image {
      LicensedSides(f.spans, f.changes, i);
    }
    forall j: nat | j < |after| && !InAllowedChild(f.spans, j) ensures j in image.Values {
      LicensedSides(f.spans, f.changes, j);
    }
  }

  /** The kept bytes of a covered change list, matched in both directions. */
  lemma KeptMap(cs: seq<ByteChange>, before: seq<Byte>, after: seq<Byte>) returns (image: map<nat, nat>)
    requires Coverage(cs, before, after, 0, 0)
    ensures CarriesOver(image, before, after)
    ensures forall i: nat | i < |before| && Kept(cs, i) :: i in image
    ensures forall j: nat | j < |after| && Kept(Reversed(cs), j) :: j in image.Values
  {
    forall i: nat | i < |before| && Kept(cs, i)
      ensures 0 <= ToChild(cs, 0, 0, i) < |after| && after[ToChild(cs, 0, 0, i)] == before[i]
    {
      KeptByte(cs, before, after, 0, 0, i);
    }
    image := map i: nat | i < |before| && Kept(cs, i) :: ToChild(cs, 0, 0, i);
    forall i, k | i in image && k in image && i < k ensures image[i] < image[k] {
      KeptOrder(cs, before, after, 0, 0, i, k);
    }
    ReversedCoverage(cs, before, after, 0, 0);
    assert Reversed(Reversed(cs)) == cs;
    forall j: nat | j < |after| && Kept(Reversed(cs), j) ensures j in image.Values {
      KeptByte(Reversed(cs), after, before, 0, 0, j);
      var i := ToChild(Reversed(cs), 0, 0, j);
      assert i in image && image[i] == j;
    }
  }

  /** The child file is its parent with the recorded segments replaced, each
      inside one allowed span on both sides. */
  lemma ContainedRewrite(ev: Evidence, f: FileContainment)
    requires EvidenceBound(ev) && ChangesWithin(ev) && f in ev.manifest.value.files
    ensures f.path in ev.parentTree.value && f.path in ev.childTree.value
    ensures Aligned(f.changes, 0, 0, |ev.parentTree.value[f.path].bytes|, |ev.childTree.value[f.path].bytes|)
    ensures ev.childTree.value[f.path].bytes ==
              Rebuild(f.changes, ev.parentTree.value[f.path].bytes, ev.childTree.value[f.path].bytes, 0, 0)
    ensures forall c <- f.changes :: exists s <- f.spans :: Allows(s, c)
  {
    var left, right := ev.parentTree.value, ev.childTree.value;
    ContainedFile(ev, f);
    CoverageIsSplice(f.changes, left[f.path].bytes, right[f.path].bytes, 0, 0);
    assert forall c <- f.changes :: ChangeLicensed(f.spans, c);
  }

  /** A forbidden unit's bytes appear verbatim and contiguously in the child, at
      the shifted offset the changes before it give, with nothing assumed about
      the hash. */
  lemma ForbiddenVerbatim(ev: Evidence, f: FileContainment, span: MutationSpan) returns (at: nat)
    requires EvidenceBound(ev) && ChangesWithin(ev) && f in ev.manifest.value.files
    requires span in f.spans && span.forbidden
    ensures f.path in ev.parentTree.value && f.path in ev.childTree.value
    ensures span.start <= span.end <= |ev.parentTree.value[f.path].bytes|
    ensures at + (span.end - span.start) <= |ev.childTree.value[f.path].bytes|
    ensures ev.childTree.value[f.path].bytes[at..at + (span.end - span.start)] ==
              ev.parentTree.value[f.path].bytes[span.start..span.end]
    ensures span.start < span.end ==> at == ToChild(f.changes, 0, 0, span.start)
  {
    ContainedFile(ev, f);
    at := VerbatimRange(ev.hash, f.spans, f.changes, ev.parentTree.value[f.path].bytes,
                        ev.childTree.value[f.path].bytes, span);
  }

  lemma VerbatimRange(hash: seq<Byte> -> string, spans: seq<MutationSpan>, changes: seq<ByteChange>,
                      before: seq<Byte>, after: seq<Byte>, span: MutationSpan)
    returns (at: nat)
    requires Coverage(changes, before, after, 0, 0)
    requires SpansBound(hash, spans, before, after) && AllLicensed(spans, changes)
    requires span in spans && span.forbidden
    ensures span.start <= span.end <= |before| && at + (span.end - span.start) <= |after|
    ensures after[at..at + (span.end - span.start)] == before[span.start..span.end]
    ensures span.start < span.end ==> at == ToChild(changes, 0, 0, span.start)
  {
    assert SpanBound(hash, span, before, after);
    at := 0;
    if span.start < span.end {
      LaterChanges(changes, before, after, 0, 0);
      forall c | c in changes ensures c.parentEnd <= span.start || span.end <= c.parentStart {
        assert ChangeLicensed(spans, c);
        assert !Overlaps(span, c);
      }
      at := UntouchedRange(changes, before, after, 0, 0, span.start, span.end);
    }
  }

  /** Every accepted patch targets an operation of the captured policy on a unit
      that no captured point forbids. */
  lemma PatchesCaptured(ev: Evidence, patch: PatchBinding) returns (point: PolicyPoint)
    requires EvidenceBound(ev) && ChangesWithin(ev) && patch in ev.manifest.value.patches
    ensures patch.id in ev.patchFiles && ev.decodePatch(ev.patchFiles[patch.id]).Some?
    ensures point in ev.decodePolicy(ev.policyBytes.value).value.points
    ensures point.Key() == PatchTarget(ev.decodePatch(ev.patchFiles[patch.id]).value)
    ensures forall other <- ev.decodePolicy(ev.policyBytes.value).value.points ::
              other.id == point.id ==> !other.forbidden
  {
    var m := ev.manifest.value;
    assert PatchBound(ev, patch, OpKeys(m.files), ChildOpKeys(m.files));
    assert PatchWithin(ev, patch, ForbiddenIds(m.files));
    point := TargetCaptured(m.files, ev.decodePolicy(ev.policyBytes.value).value.points,
                            PatchTarget(ev.decodePatch(ev.patchFiles[patch.id]).value));
  }

  lemma TargetCaptured(files: seq<FileContainment>, points: seq<PolicyPoint>, target: OpKey)
    returns (point: PolicyPoint)
    requires OneToOne(Declared(files), points)
    requires forall i, j :: 0 <= i < j < |points| ==> points[i].Key() != points[j].Key()
    requires target in OpKeys(files) && target.id !in ForbiddenIds(files)
    ensures point in points && point.Key() == target
    ensures forall other <- points :: other.id == point.id ==> !other.forbidden
  {
    DeclaredKeys(files, |files|);
    assert files[..|files|] == files;
    var j :| 0 <= j < |points| && points[j].Key() == target;
    point := points[j];
    forall other | other in points && other.id == point.id ensures !other.forbidden {
      var span := DeclarationOf(files, points, other);
    }
  }

  /** The declaration a captured point was matched with. */
  lemma DeclarationOf(files: seq<FileContainment>, points: seq<PolicyPoint>, point: PolicyPoint)
    returns (span: MutationSpan)
    requires point in points && OneToOne(Declared(files), points)
    requires forall i, j :: 0 <= i < j < |points| ==> points[i].Key() != points[j].Key()
    ensures exists f <- files :: span in f.spans
    ensures span.forbidden == point.forbidden && span.id == point.id
    ensures span.forbidden ==> span.id in ForbiddenIds(files)
  {
    var all := Declared(files);
    assert point.Key() in PointKeys(points);
    assert point.Key() in Keys(all);
    var i :| 0 <= i < |all| && all[i].Key() == point.Key();
    assert Captured(all[i], points);
    span := all[i].span;
    DeclaredIn(files, i);
  }

  lemma {:induction false} DeclaredIn(files: seq<FileContainment>, i: nat)
    requires i < |Declared(files)|
    ensures exists f <- files :: Declared(files)[i].span in f.spans
  {
    var init := files[..|files| - 1];
    if i < |Declared(init)| {
      DeclaredIn(init, i);
      var f :| f in init && Declared(init)[i].span in f.spans;
      assert f in files;
    } else {
      assert files[|files| - 1] in files;
      assert Declared(files)[i] == Owned(files[|files| - 1].path, files[|files| - 1].spans)[i - |Declared(init)|];
    }
  }
}
