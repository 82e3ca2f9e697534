/** What bound evidence binds: whatever content a record was made of, the content
    found now is the same or a second one with the same hash. */
module RangeBinding {
  import opened Common
  import opened RangeEvidence
  import opened RangePolicy
  import opened RangeContainment
  import Sha256

  type Hash = seq<Byte> -> string

  /** The same bytes, or two different ones that hash alike. */
  predicate SameOrCollide(hash: Hash, now: seq<Byte>, was: seq<Byte>) {
    now == was || (now != was && hash(now) == hash(was))
  }

  // ---- paths and digests --------------------------------------------------

  /** Where following the components leads: empty and "." stay, ".." goes up. */
  function Walk(parts: seq<string>): seq<string> {
    if parts == [] then []
    else
      var init, last := Walk(parts[..|parts| - 1]), parts[|parts| - 1];
      if last == "" || last == "." then init
      else if last == ".." then init[..Longest(|init| - 1, 0)]
      else init + [last]
  }

  function Longest(a: int, b: int): int { if a >= b then a else b }

  predicate Ordinary(part: string) { part != "" && part != "." && part != ".." }

  lemma {:induction false} WalkSame(parts: seq<string>)
    requires forall i :: 0 <= i < |parts| ==> Ordinary(parts[i])
    ensures Walk(parts) == parts
  {
    if parts != [] {
      WalkSame(parts[..|parts| - 1]);
    }
  }

  lemma {:induction false} WalkShorter(parts: seq<string>)
    ensures |Walk(parts)| <= |parts|
    ensures (exists i :: 0 <= i < |parts| && !Ordinary(parts[i])) ==> |Walk(parts)| < |parts|
  {
    if parts != [] {
      WalkShorter(parts[..|parts| - 1]);
    }
  }

  /** Only ordinary components lead where they say. */
  lemma WalkOrdinary(parts: seq<string>)
    ensures Walk(parts) == parts <==> forall part <- parts :: Ordinary(part)
  {
    WalkShorter(parts);
    if forall part <- parts :: Ordinary(part) {
      WalkSame(parts);
    }
  }

  /** A path is safe if and only if it has neither a backslash nor a NUL and its
      components, followed from a root, lead exactly where they say: below it. */
  lemma SafeRelativeIff(value: string)
    ensures SafeRelative(value) <==>
              '\\' !in value && '\0' !in value && Walk(Split(value, '/')) == Split(value, '/')
  {
    WalkOrdinary(Split(value, '/'));
    if value == "" {
      assert Split(value, '/') == [""] && "" in Split(value, '/');
    }
  }

  /** A digest is what the hex form of 32 bytes looks like. */
  lemma {:induction false} HexPairs(s: string) returns (bytes: seq<Byte>)
    requires |s| % 2 == 0 && forall c <- s :: '0' <= c <= '9' || 'a' <= c <= 'f'
    ensures Sha256.Hex(bytes) == s
  {
    if s == "" {
      bytes := [];
    } else {
      var n := |s| - 2;
      assert s[n] in s && s[n + 1] in s && forall c <- s[..n] :: c in s;
      assert s == s[..n] + [s[n], s[n + 1]];
      var init := HexPairs(s[..n]);
      var high := Digit(s[n]);
      var low := Digit(s[n + 1]);
      HexMore(init, high, low);
      bytes := init + [16 * high + low];
    }
  }

  lemma HexMore(bytes: seq<Byte>, high: nat, low: nat)
    requires high < 16 && low < 16
    ensures Sha256.Hex(bytes + [16 * high + low]) ==
              Sha256.Hex(bytes) + [Sha256.HexDigit(high), Sha256.HexDigit(low)]
  {
    var b := 16 * high + low;
    assert b / 16 == high && b % 16 == low;
    assert (bytes + [b])[..|bytes|] == bytes;
  }

  lemma Digit(c: char) returns (n: nat)
    requires '0' <= c <= '9' || 'a' <= c <= 'f'
    ensures n < 16 && Sha256.HexDigit(n) == c
  {
    n := if c <= '9' then (c - '0') as nat else (c - 'a') as nat + 10;
  }

  lemma IsDigestIff(value: string)
    ensures IsDigest(value) <==> exists bytes: seq<Byte> :: |bytes| == 32 && Sha256.Hex(bytes) == value
  {
    if IsDigest(value) {
      var bytes := HexPairs(value);
    }
    if bytes: seq<Byte> :| |bytes| == 32 && Sha256.Hex(bytes) == value {
      Sha256.HexDigitsOnly(bytes);
    }
  }

  lemma ContinuesIsUnder(path: string, root: string)
    requires root + "/" <= path
    ensures Split(root, '/') <= Split(path, '/')
  {
    var rest := path[|root| + 1..];
    assert path == root + ['/'] + rest;
    SplitAt(root, '/', rest);
  }

  lemma LongerJoins(r: seq<string>, p: seq<string>, sep: char)
    requires r != [] && r <= p && |r| < |p|
    ensures Join(r, sep) + [sep] <= Join(p, sep)
  {
    assert p == r + p[|r|..];
    JoinContinues(r, p[|r|..], sep);
  }

  lemma PrefixContinues(path: string, root: string, p: seq<string>, r: seq<string>)
    requires path == Join(p, '/') && root == Join(r, '/') && r != [] && r <= p && path != root
    ensures root + "/" <= path
  {
    assert p != r && p[..|r|] == r;
    assert p == p[..|r|] + p[|r|..];
    LongerJoins(r, p, '/');
  }

  lemma UnderContinues(path: string, root: string)
    requires Split(root, '/') <= Split(path, '/') && path != root
    ensures root + "/" <= path
  {
    SplitJoins(path, '/');
    SplitJoins(root, '/');
    PrefixContinues(path, root, Split(path, '/'), Split(root, '/'));
  }

  /** A path is under another root exactly if it is the root or continues it after a
      slash. */
  lemma UnderIff(path: string, root: string)
    requires root != "."
    ensures Under(path, root) <==> path == root || root + "/" <= path
  {
    if root + "/" <= path {
      ContinuesIsUnder(path, root);
    } else if Split(root, '/') <= Split(path, '/') && path != root {
      UnderContinues(path, root);
    }
  }

  lemma {:induction false} JoinContinues(a: seq<string>, b: seq<string>, sep: char)
    requires a != [] && b != []
    ensures Join(a, sep) + [sep] <= Join(a + b, sep)
  {
    var init, last := b[..|b| - 1], b[|b| - 1];
    assert (a + b)[..|a + b| - 1] == a + init;
    if init == [] {
      assert a + init == a;
    } else {
      JoinContinues(a, init, sep);
    }
  }

  // ---- the policy pins the parent -----------------------------------------

  /** The inventory was made of tree `was`: every file once, with its hash and
      executable bit. */
  ghost predicate Inventories(hash: Hash, files: seq<PolicyFile>, was: Tree) {
    && Paths(files) == was.Keys
    && (forall i, j :: 0 <= i < j < |files| ==> files[i].path != files[j].path)
    && forall f <- files ::
         f.path in was && f.sha256 == hash(was[f.path].bytes) && f.executable == was[f.path].executable
  }

  /** The same files with the same executable bits, and contents that hash alike. */
  ghost predicate Alike(hash: Hash, now: Tree, was: Tree) {
    && now.Keys == was.Keys
    && forall p <- was :: now[p].executable == was[p].executable && hash(now[p].bytes) == hash(was[p].bytes)
  }

  /** The inventory of a tree is accepted for exactly the trees alike to it. */
  lemma InventoryAcceptsIff(hash: Hash, files: seq<PolicyFile>, was: Tree, now: Tree)
    requires Inventories(hash, files, was)
    ensures InventoryBound(hash, files, now) <==> (forall p <- was :: SafeRelative(p)) && Alike(hash, now, was)
  {
    forall p | p in was ensures exists i :: 0 <= i < |files| && files[i].path == p {
      assert p in Paths(files);
    }
    if InventoryBound(hash, files, now) {
      forall p | p in was
        ensures SafeRelative(p) && p in now && now[p].executable == was[p].executable
        ensures hash(now[p].bytes) == hash(was[p].bytes)
      {
        var i :| 0 <= i < |files| && files[i].path == p;
        assert files[i] in files && FileBound(hash, files[i], now);
      }
    } else if (forall p <- was :: SafeRelative(p)) && Alike(hash, now, was) {
      forall i | 0 <= i < |files| ensures FileBound(hash, files[i], now) {
        assert files[i] in files;
      }
    }
  }

  /** With bound evidence the parent is the tree the policy was captured from, file
      for file, or two contents of one of its files collide. */
  lemma ParentAsCaptured(ev: Evidence, was: Tree, path: string)
    requires RecordsBound(ev) && Inventories(ev.hash, ev.decodePolicy(ev.policyBytes.value).value.sourceFiles, was)
    ensures path in ev.parentTree.value <==> path in was
    ensures path in was ==>
              && ev.parentTree.value[path].executable == was[path].executable
              && SameOrCollide(ev.hash, ev.parentTree.value[path].bytes, was[path].bytes)
  {
    InventoryAcceptsIff(ev.hash, ev.decodePolicy(ev.policyBytes.value).value.sourceFiles, was, ev.parentTree.value);
  }

  /** The captured records are the ones the digests were made of, or collide. */
  lemma RecordsAsCaptured(ev: Evidence, policy: seq<Byte>, brief: seq<Byte>, scoring: seq<Byte>)
    requires RecordsBound(ev)
    requires ev.manifest.value.policySha256 == ev.hash(policy)
    requires ev.decodePolicy(policy).Some?
    requires ev.decodePolicy(policy).value.briefSha256 == ev.hash(brief)
    requires ev.decodePolicy(policy).value.scoringSha256 == ev.hash(scoring)
    ensures ev.policyBytes.Some? && SameOrCollide(ev.hash, ev.policyBytes.value, policy) && IsDigest(ev.hash(policy))
    ensures ev.policyBytes.value == policy ==>
              && IsDigest(ev.hash(brief)) && IsDigest(ev.hash(scoring))
              && ev.briefBytes.Some? && SameOrCollide(ev.hash, ev.briefBytes.value, brief)
              && ev.scoringBytes.Some? && SameOrCollide(ev.hash, ev.scoringBytes.value, scoring)
  {
  }

  /** All records name the one generation that was asked for. */
  lemma OneGeneration(ev: Evidence)
    requires EvidenceBound(ev)
    ensures var m, p, x := ev.manifest.value, ev.decodePolicy(ev.policyBytes.value).value, ev.experiment.value;
            && m.epochId == p.epochId == ev.epoch && x.epochId == Some(ev.epoch)
            && m.parentGenerationId == p.parentGenerationId == ev.parentId && x.parentGenerationId == Some(ev.parentId)
            && m.generationId == ev.childId && x.generationId == Some(ev.childId)
            && ev.roots == Some(Roots(Some(m.parentSource), Some(m.childSource))) && p.parentSource == m.parentSource
            && m.formatVersion == p.formatVersion == 1
            && x.patchIds.Some? && Distinct(x.patchIds.value)
            && |x.patchIds.value| == |m.patches|
            && forall i :: 0 <= i < |m.patches| ==> x.patchIds.value[i] == m.patches[i].id
  {
    DistinctIds(ev.manifest.value.patches);
  }

  lemma {:induction false} DistinctIds(patches: seq<PatchBinding>)
    ensures |IdSet(patches)| <= |patches|
    ensures |IdSet(patches)| == |patches| ==> Distinct(PatchIds(patches))
  {
    if patches != [] {
      var n := |patches| - 1;
      var init, last := patches[..n], patches[n];
      DistinctIds(init);
      assert patches == init + [last];
      assert IdSet(patches) == IdSet(init) + {last.id};
      if |IdSet(patches)| == |patches| {
        assert last.id !in IdSet(init);
        forall i, j | 0 <= i < j < |patches| ensures PatchIds(patches)[i] != PatchIds(patches)[j] {
          assert init[i] in init;
          assert j < n ==> PatchIds(init)[i] != PatchIds(init)[j];
        }
      }
    }
  }

  /** Every captured point lies in a safe path under one of the roots, which are
      canonical and listed once. */
  lemma PointsUnderRoots(ev: Evidence, point: PolicyPoint) returns (root: string)
    requires RecordsBound(ev) && point in ev.decodePolicy(ev.policyBytes.value).value.points
    ensures SafeRelative(point.path)
    ensures root in ev.decodePolicy(ev.policyBytes.value).value.enumerationRoots && root in ev.canonicalRoots
    ensures root == "." || (SafeRelative(root) && (point.path == root || root + "/" <= point.path))
    ensures Distinct(ev.decodePolicy(ev.policyBytes.value).value.enumerationRoots)
  {
    var policy := ev.decodePolicy(ev.policyBytes.value).value;
    assert PointPlaced(point, set r <- policy.enumerationRoots);
    root :| root in policy.enumerationRoots && Under(point.path, root);
    if root != "." {
      UnderIff(point.path, root);
    }
  }

  // ---- the manifest pins both trees ---------------------------------------

  /** A file was there or was not, and had these bytes if it was. */
  ghost predicate AsRecorded(hash: Hash, tree: Tree, path: string, was: Option<SourceFile>) {
    if was.None? then path !in tree
    else && path in tree && tree[path].executable == was.value.executable
         && SameOrCollide(hash, tree[path].bytes, was.value.bytes)
  }

  ghost predicate Describes(hash: Hash, sha256: Option<string>, executable: Option<bool>, was: Option<SourceFile>) {
    && sha256 == (if was.None? then None else Some(hash(was.value.bytes)))
    && executable == if was.None? then None else Some(was.value.executable)
  }

  /** With bound evidence each side of a file is the one the manifest was made of. */
  lemma FileAsRecorded(ev: Evidence, f: FileContainment, before: Option<SourceFile>, after: Option<SourceFile>)
    requires EvidenceBound(ev) && f in ev.manifest.value.files
    requires Describes(ev.hash, f.parentSha256, f.parentExecutable, before)
    requires Describes(ev.hash, f.childSha256, f.childExecutable, after)
    ensures AsRecorded(ev.hash, ev.parentTree.value, f.path, before)
    ensures AsRecorded(ev.hash, ev.childTree.value, f.path, after)
  {
    assert FileBoundTo(ev.hash, f, ev.parentTree.value, ev.childTree.value);
  }

  /** A span's bytes in the parent, and in the child if it is found there, are those
      its record was made of. */
  lemma SpanAsRecorded(ev: Evidence, f: FileContainment, span: MutationSpan, unit: seq<Byte>, child: seq<Byte>)
    requires EvidenceBound(ev) && f in ev.manifest.value.files && span in f.spans && span.sourceSha256 == ev.hash(unit)
    requires span.childSourceSha256.Some? ==> span.childSourceSha256.value == ev.hash(child)
    ensures span.start <= span.end <= |BytesOf(ev.parentTree.value, f.path)|
    ensures SameOrCollide(ev.hash, BytesOf(ev.parentTree.value, f.path)[span.start..span.end], unit)
    ensures span.childStart.Some? <==> span.childEnd.Some?
    ensures span.childStart.Some? <==> span.childSourceSha256.Some?
    ensures span.childStart.Some? ==>
              && span.childStart.value <= span.childEnd.value <= |BytesOf(ev.childTree.value, f.path)|
              && SameOrCollide(ev.hash, BytesOf(ev.childTree.value, f.path)[span.childStart.value..span.childEnd.value],
                               child)
    ensures span.id != "" && span.kind in {"span", "file", "code"} && span.op in {"replace", "set_numeric", "set_enum"}
    ensures IsDigest(span.contentHash)
  {
    assert FileBoundTo(ev.hash, f, ev.parentTree.value, ev.childTree.value);
    assert SpanBound(ev.hash, span, BytesOf(ev.parentTree.value, f.path), BytesOf(ev.childTree.value, f.path));
  }

  /** In a contained child every forbidden unit is found, with the parent's bytes or
      ones that collide with them. */
  lemma ForbiddenFound(ev: Evidence, f: FileContainment, span: MutationSpan)
    requires EvidenceBound(ev) && ChangesWithin(ev) && f in ev.manifest.value.files
    requires span in f.spans && span.forbidden
    ensures f.path in ev.parentTree.value && f.path in ev.childTree.value
    ensures var before, after := ev.parentTree.value[f.path].bytes, ev.childTree.value[f.path].bytes;
            && span.childStart.Some? && span.childEnd.Some?
            && span.start <= span.end <= |before| && span.childStart.value <= span.childEnd.value <= |after|
            && SameOrCollide(ev.hash, after[span.childStart.value..span.childEnd.value], before[span.start..span.end])
  {
    var left, right := ev.parentTree.value, ev.childTree.value;
    assert FileBoundTo(ev.hash, f, left, right) && FileWithin(f, left, right);
    assert SpanBound(ev.hash, span, BytesOf(left, f.path), BytesOf(right, f.path));
  }

  /** The span an accepted patch targets. */
  lemma PatchedSpan(ev: Evidence, patch: PatchBinding) returns (f: FileContainment, span: MutationSpan)
    requires EvidenceBound(ev) && patch in ev.manifest.value.patches
    ensures f in ev.manifest.value.files && span in f.spans && span.childStart.Some?
    ensures patch.id in ev.patchFiles && ev.decodePatch(ev.patchFiles[patch.id]).Some?
    ensures PatchTarget(ev.decodePatch(ev.patchFiles[patch.id]).value) == OpKey(span.id, span.op)
  {
    var files := ev.manifest.value.files;
    assert PatchBound(ev, patch, OpKeys(files), ChildOpKeys(files));
    f, span := ChildSpan(files, PatchTarget(ev.decodePatch(ev.patchFiles[patch.id]).value));
  }

  lemma SpanNamed(ev: Evidence, f: FileContainment, span: MutationSpan)
    requires EvidenceBound(ev) && f in ev.manifest.value.files && span in f.spans
    ensures span.id != "" && span.op != ""
  {
    assert FileBoundTo(ev.hash, f, ev.parentTree.value, ev.childTree.value);
    assert SpanBound(ev.hash, span, BytesOf(ev.parentTree.value, f.path), BytesOf(ev.childTree.value, f.path));
  }

  /** A patch record is the one its binding was made of; it names itself, and its
      operation is declared by a span that is still found in the child. */
  lemma PatchAsRecorded(ev: Evidence, patch: PatchBinding, was: seq<Byte>)
    returns (f: FileContainment, span: MutationSpan)
    requires EvidenceBound(ev) && patch in ev.manifest.value.patches && patch.sha256 == ev.hash(was)
    ensures SafeRelative(patch.id) && '/' !in patch.id && patch.id in ev.patchFiles && IsDigest(patch.sha256)
    ensures SameOrCollide(ev.hash, ev.patchFiles[patch.id], was)
    ensures var body := ev.decodePatch(ev.patchFiles[patch.id]);
            body.Some? && body.value == PatchBody(Some(patch.id), Some(span.id), Some(span.op))
    ensures f in ev.manifest.value.files && span in f.spans && span.childStart.Some?
  {
    assert PatchBound(ev, patch, OpKeys(ev.manifest.value.files), ChildOpKeys(ev.manifest.value.files));
    f, span := PatchedSpan(ev, patch);
    SpanNamed(ev, f, span);
  }

  lemma ChildSpan(files: seq<FileContainment>, target: OpKey) returns (f: FileContainment, span: MutationSpan)
    requires target in ChildOpKeys(files)
    ensures f in files && span in f.spans && span.childStart.Some? && OpKey(span.id, span.op) == target
  {
    f :| f in files && exists s <- f.spans :: s.childStart.Some? && OpKey(s.id, s.op) == target;
    span :| span in f.spans && span.childStart.Some? && OpKey(span.id, span.op) == target;
  }

  /** Each file of either tree has one record, and no record is of a file in
      neither. */
  lemma InventoryRecorded(ev: Evidence, path: string)
    requires EvidenceBound(ev)
    ensures path in ev.parentTree.value || path in ev.childTree.value <==>
              exists f <- ev.manifest.value.files :: f.path == path
    ensures forall i, j :: 0 <= i < j < |ev.manifest.value.files| ==>
              ev.manifest.value.files[i].path != ev.manifest.value.files[j].path
    ensures forall f <- ev.manifest.value.files :: SafeRelative(f.path)
  {
    var files := ev.manifest.value.files;
    DistinctPaths(files);
    if path in RecordedPaths(files) {
      var f :| f in files && f.path == path;
    }
    forall f | f in files ensures SafeRelative(f.path) {
      assert FileBoundTo(ev.hash, f, ev.parentTree.value, ev.childTree.value);
    }
  }

  lemma {:induction false} DistinctPaths(files: seq<FileContainment>)
    ensures |RecordedPaths(files)| <= |files|
    ensures |RecordedPaths(files)| == |files| ==>
              forall i, j :: 0 <= i < j < |files| ==> files[i].path != files[j].path
  {
    if files != [] {
      var n := |files| - 1;
      var init, last := files[..n], files[n];
      DistinctPaths(init);
      assert files == init + [last];
      assert RecordedPaths(files) == RecordedPaths(init) + {last.path};
      if |RecordedPaths(files)| == |files| {
        assert last.path !in RecordedPaths(init);
        forall i | 0 <= i < n ensures files[i].path != last.path {
          assert init[i] in init;
        }
      }
    }
  }

  // ---- forbidden units ----------------------------------------------------

  predicate In(i: nat, from: nat, to: nat) { from <= i < to }

  /** A change touches a span: they share a byte, or one of them is a single point
      strictly inside the other, or both are the same point. */
  predicate Touches(span: MutationSpan, c: ByteChange) {
    || (exists i: nat | i < span.end :: In(i, span.start, span.end) && In(i, c.parentStart, c.parentEnd))
    || (c.parentStart == c.parentEnd && span.start < c.parentStart < span.end)
    || (span.start == span.end && c.parentStart < span.start < c.parentEnd)
    || (c.parentStart == c.parentEnd == span.start == span.end)
  }

  lemma OverlapsIff(span: MutationSpan, c: ByteChange)
    requires span.start <= span.end && c.parentStart <= c.parentEnd
    ensures Overlaps(span, c) <==> span.forbidden && Touches(span, c)
  {
    var i := if span.start >= c.parentStart then span.start else c.parentStart;
    assert In(i, span.start, span.end) <==> span.start <= i < span.end;
  }

  /** No change of a contained child touches a forbidden unit, empty ones included. */
  lemma ForbiddenUntouched(ev: Evidence, f: FileContainment, span: MutationSpan, c: ByteChange)
    requires EvidenceBound(ev) && ChangesWithin(ev) && f in ev.manifest.value.files
    requires span in f.spans && span.forbidden && c in f.changes && c.parentStart <= c.parentEnd
    ensures !Touches(span, c)
  {
    var left, right := ev.parentTree.value, ev.childTree.value;
    assert FileBoundTo(ev.hash, f, left, right) && FileWithin(f, left, right);
    assert SpanBound(ev.hash, span, BytesOf(left, f.path), BytesOf(right, f.path));
    assert ChangeLicensed(f.spans, c);
    OverlapsIff(span, c);
  }
}
