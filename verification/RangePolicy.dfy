/** `verify_policy`: the manifest's declarations against the policy captured
    before the proposal. */
module RangePolicy {
  import opened Common
  import opened RangeEvidence

  /** The policy lists exactly the observed parent files, each once. */
  ghost predicate InventoryBound(hash: seq<Byte> -> string, files: seq<PolicyFile>, source: Tree) {
    && (forall i :: 0 <= i < |files| ==> FileBound(hash, files[i], source))
    && (forall i, j :: 0 <= i < j < |files| ==> files[i].path != files[j].path)
    && Paths(files) == source.Keys
  }

  ghost function Paths(files: seq<PolicyFile>): set<string> {
    set i | 0 <= i < |files| :: files[i].path
  }

  lemma PathsExtend(files: seq<PolicyFile>, n: nat)
    requires n < |files|
    ensures Paths(files[..n + 1]) == Paths(files[..n]) + {files[n].path}
    ensures files[n].path in Paths(files[..n]) ==> exists i :: 0 <= i < n && files[i].path == files[n].path
  {
    var more := files[..n + 1];
    assert more == files[..n] + [files[n]];
    forall p | p in Paths(files[..n]) ensures p in Paths(more) {
      var i :| 0 <= i < n && files[..n][i].path == p;
      assert more[i].path == p;
    }
    assert more[n] == files[n];
  }

  predicate FileBound(hash: seq<Byte> -> string, f: PolicyFile, source: Tree) {
    && SafeRelative(f.path)
    && f.path in source
    && hash(source[f.path].bytes) == f.sha256
    && source[f.path].executable == f.executable
  }

  ghost predicate RootsBound(roots: seq<string>, canonical: set<string>) {
    && roots != []
    && Distinct(roots)
    && forall r <- roots :: (r == "." || SafeRelative(r)) && r in canonical
  }

  predicate PointPlaced(point: PolicyPoint, roots: set<string>) {
    SafeRelative(point.path) && exists r <- roots :: Under(point.path, r)
  }

  ghost predicate PointsBound(points: seq<PolicyPoint>, roots: set<string>) {
    && (forall p <- points :: PointPlaced(p, roots))
    && forall i, j :: 0 <= i < j < |points| ==> points[i].Key() != points[j].Key()
  }

  ghost function Keys(spans: seq<Declaration>): set<OpKey> {
    set i | 0 <= i < |spans| :: spans[i].Key()
  }

  ghost function PointKeys(points: seq<PolicyPoint>): set<OpKey> {
    set j | 0 <= j < |points| :: points[j].Key()
  }

  /** Each declared span equals a captured point in every compared field, no
      operation is declared twice and no captured operation is left out. */
  ghost predicate OneToOne(spans: seq<Declaration>, points: seq<PolicyPoint>) {
    && (forall i :: 0 <= i < |spans| ==> Captured(spans[i], points))
    && (forall i, i' :: 0 <= i < i' < |spans| ==> spans[i].Key() != spans[i'].Key())
    && Keys(spans) == PointKeys(points)
  }

  ghost predicate Captured(d: Declaration, points: seq<PolicyPoint>) {
    exists j :: 0 <= j < |points| && points[j].Matches(d)
  }

  ghost predicate PolicyBound(ev: Evidence, manifest: Manifest, source: Tree) {
    && Bound(ev.hash, ev.policyBytes, manifest.policySha256)
    && var decoded := ev.decodePolicy(ev.policyBytes.value);
    && decoded.Some?
    && var policy := decoded.value;
    && policy.formatVersion == 1
    && policy.epochId == ev.epoch
    && policy.parentGenerationId == ev.parentId
    && policy.parentSource == manifest.parentSource
    && Bound(ev.hash, ev.briefBytes, policy.briefSha256)
    && Bound(ev.hash, ev.scoringBytes, policy.scoringSha256)
    && InventoryBound(ev.hash, policy.sourceFiles, source)
    && RootsBound(policy.enumerationRoots, ev.canonicalRoots)
    && PointsBound(policy.points, set r <- policy.enumerationRoots)
    && OneToOne(Declared(manifest.files), policy.points)
  }

  /** Lines 319-332: membership, distinctness and a count give equality. */
  method VerifyInventory(hash: seq<Byte> -> string, files: seq<PolicyFile>, source: Tree)
    returns (ok: bool)
    ensures ok <==> InventoryBound(hash, files, source)
  {
    var paths: set<string> := {};
    var n := 0;
    while n < |files| && FileBound(hash, files[n], source) && files[n].path !in paths
      invariant 0 <= n <= |files|
      invariant paths == Paths(files[..n]) && paths <= source.Keys
      invariant forall i :: 0 <= i < n ==> FileBound(hash, files[i], source)
      invariant forall i, j :: 0 <= i < j < n ==> files[i].path != files[j].path
    {
      PathsExtend(files, n);
      paths := paths + {files[n].path};
      n := n + 1;
    }
    ok := n == |files| && |paths| == |source|;
    InventoryDecided(hash, files, source, n);
  }

  lemma InventoryDecided(hash: seq<Byte> -> string, files: seq<PolicyFile>, source: Tree, n: nat)
    requires n <= |files|
    requires Paths(files[..n]) <= source.Keys
    requires forall i :: 0 <= i < n ==> FileBound(hash, files[i], source)
    requires forall i, j :: 0 <= i < j < n ==> files[i].path != files[j].path
    requires n < |files| ==> !FileBound(hash, files[n], source) || files[n].path in Paths(files[..n])
    ensures n == |files| && |Paths(files[..n])| == |source| <==> InventoryBound(hash, files, source)
  {
    if n == |files| {
      assert files[..n] == files && |source| == |source.Keys|;
      if |Paths(files)| == |source| {
        EqualByCount(Paths(files), source.Keys);
      }
    } else {
      PathsExtend(files, n);
    }
  }

  method VerifyRoots(values: seq<string>, canonical: set<string>) returns (ok: bool, roots: set<string>)
    ensures ok <==> RootsBound(values, canonical)
    ensures ok ==> roots == set r <- values
  {
    roots := {};
    for n := 0 to |values|
      invariant roots == set r <- values[..n]
      invariant Distinct(values[..n])
      invariant forall r <- values[..n] :: (r == "." || SafeRelative(r)) && r in canonical
    {
      assert values[..n + 1] == values[..n] + [values[n]];
      if !(values[n] == "." || SafeRelative(values[n])) || values[n] !in canonical {
        return false, roots;
      }
      if values[n] in roots {
        var i :| 0 <= i < n && values[..n][i] == values[n];
        assert values[i] == values[n];
        return false, roots;
      }
      roots := roots + {values[n]};
    }
    assert values[..|values|] == values;
    ok := roots != {};
    if values != [] { assert values[0] in roots; }
  }

  /** Lines 350-362: the captured points, indexed by (id, op). */
  method IndexPoints(points: seq<PolicyPoint>, roots: set<string>)
    returns (ok: bool, index: map<OpKey, PolicyPoint>)
    ensures ok <==> PointsBound(points, roots)
    ensures ok ==> index.Keys == PointKeys(points)
    ensures ok ==> forall j :: 0 <= j < |points| ==> index[points[j].Key()] == points[j]
  {
    index := map[];
    for n := 0 to |points|
      invariant index.Keys == set j | 0 <= j < n :: points[j].Key()
      invariant forall j :: 0 <= j < n ==> index[points[j].Key()] == points[j]
      invariant forall j :: 0 <= j < n ==> PointPlaced(points[j], roots)
      invariant forall i, j :: 0 <= i < j < n ==> points[i].Key() != points[j].Key()
    {
      if !PointPlaced(points[n], roots) || points[n].Key() in index {
        return false, index;
      }
      index := index[points[n].Key() := points[n]];
    }
    ok := true;
  }

  /** The inner loop of lines 363-375: one file's declarations. */
  method MatchFile(path: string, spans: seq<MutationSpan>, index: map<OpKey, PolicyPoint>,
                   ghost before: seq<Declaration>, already: set<OpKey>)
    returns (ok: bool, observed: set<OpKey>)
    requires already == Keys(before) && Seen(before, index)
    ensures ok <==> Seen(before + Owned(path, spans), index)
    ensures ok ==> observed == Keys(before + Owned(path, spans))
  {
    observed := already;
    ghost var all := before + Owned(path, spans);
    ghost var k := |before|;
    assert all[..k] == before;
    for s := 0 to |spans|
      invariant k == |before| + s
      invariant observed == Keys(all[..k]) && Seen(all[..k], index)
    {
      var decl := Declaration(path, spans[s]);
      assert all[k] == decl;
      if decl.Key() in observed || decl.Key() !in index || !index[decl.Key()].Matches(decl) {
        NotSeen(all, index, k);
        return false, observed;
      }
      observed := observed + {decl.Key()};
      SeenExtends(all[..k], decl, index);
      assert all[..k] + [decl] == all[..k + 1];
      k := k + 1;
    }
    assert all[..k] == all;
    ok := true;
  }

  /** Lines 363-378: every declaration matches its point, and none is omitted. */
  method MatchDeclarations(files: seq<FileContainment>, ghost points: seq<PolicyPoint>,
                           index: map<OpKey, PolicyPoint>)
    returns (ok: bool)
    requires index.Keys == PointKeys(points)
    requires forall j :: 0 <= j < |points| ==> index[points[j].Key()] == points[j]
    ensures ok <==> OneToOne(Declared(files), points)
  {
    var observed: set<OpKey> := {};
    for f := 0 to |files|
      invariant observed == Keys(Declared(files[..f])) && Seen(Declared(files[..f]), index)
    {
      assert files[..f + 1][..f] == files[..f];
      var fine;
      fine, observed := MatchFile(files[f].path, files[f].spans, index, Declared(files[..f]), observed);
      if !fine {
        DeclaredPrefix(files, f + 1);
        if Seen(Declared(files), index) {
          SeenPrefix(Declared(files), Declared(files[..f + 1]), index);
          assert false;
        }
        OneToOneSeen(Declared(files), points, index);
        return false;
      }
    }
    assert files[..|files|] == files;
    ok := |observed| == |index|;
    assert |index| == |index.Keys|;
    Accounted(Declared(files), points, index);
  }

  ghost predicate Seen(spans: seq<Declaration>, index: map<OpKey, PolicyPoint>) {
    && (forall i :: 0 <= i < |spans| ==>
          spans[i].Key() in index && index[spans[i].Key()].Matches(spans[i]))
    && (forall i, j :: 0 <= i < j < |spans| ==> spans[i].Key() != spans[j].Key())
  }

  lemma SeenExtends(spans: seq<Declaration>, s: Declaration,
                    index: map<OpKey, PolicyPoint>)
    requires Seen(spans, index) && s.Key() !in Keys(spans)
    requires s.Key() in index && index[s.Key()].Matches(s)
    ensures Seen(spans + [s], index)
    ensures Keys(spans + [s]) == Keys(spans) + {s.Key()}
  {
    var all := spans + [s];
    forall k | k in Keys(spans) ensures k in Keys(all) {
      var i :| 0 <= i < |spans| && spans[i].Key() == k;
      assert all[i] == spans[i];
    }
    assert all[|spans|] == s;
  }

  lemma {:induction false} DeclaredPrefix(files: seq<FileContainment>, n: nat)
    requires n <= |files|
    ensures Declared(files[..n]) <= Declared(files)
    decreases |files| - n
  {
    if n == |files| {
      assert files[..n] == files;
    } else {
      assert files[..n + 1][..n] == files[..n];
      DeclaredPrefix(files, n + 1);
    }
  }

  lemma NotSeen(all: seq<Declaration>, index: map<OpKey, PolicyPoint>, k: nat)
    requires k < |all|
    requires
      || all[k].Key() in Keys(all[..k])
      || all[k].Key() !in index
      || !index[all[k].Key()].Matches(all[k])
    ensures !Seen(all, index)
  {
    if all[k].Key() in Keys(all[..k]) {
      var i :| 0 <= i < k && all[..k][i].Key() == all[k].Key();
      assert all[i].Key() == all[k].Key();
    }
  }

  lemma SeenPrefix(all: seq<Declaration>, part: seq<Declaration>, index: map<OpKey, PolicyPoint>)
    requires Seen(all, index) && part <= all
    ensures Seen(part, index)
  {
    assert forall i :: 0 <= i < |part| ==> part[i] == all[i];
  }

  lemma OneToOneSeen(all: seq<Declaration>, points: seq<PolicyPoint>, index: map<OpKey, PolicyPoint>)
    requires index.Keys == PointKeys(points)
    requires forall j :: 0 <= j < |points| ==> index[points[j].Key()] == points[j]
    ensures OneToOne(all, points) ==> Seen(all, index)
  {
    if OneToOne(all, points) {
      forall i | 0 <= i < |all|
        ensures all[i].Key() in index && index[all[i].Key()].Matches(all[i])
      {
        assert Captured(all[i], points);
        var j :| 0 <= j < |points| && points[j].Matches(all[i]);
        assert points[j].Key() == all[i].Key();
      }
    }
  }

  lemma Accounted(all: seq<Declaration>, points: seq<PolicyPoint>, index: map<OpKey, PolicyPoint>)
    requires index.Keys == PointKeys(points)
    requires forall j :: 0 <= j < |points| ==> index[points[j].Key()] == points[j]
    requires Seen(all, index)
    ensures |Keys(all)| == |index.Keys| <==> OneToOne(all, points)
  {
    assert Keys(all) <= index.Keys;
    forall i | 0 <= i < |all| ensures Captured(all[i], points) {
      var j :| 0 <= j < |points| && points[j].Key() == all[i].Key();
      assert points[j].Matches(all[i]);
    }
    if |Keys(all)| == |index.Keys| {
      EqualByCount(Keys(all), index.Keys);
    }
  }

  method VerifyPolicy(ev: Evidence, manifest: Manifest, source: Tree) returns (ok: bool)
    ensures ok <==> PolicyBound(ev, manifest, source)
  {
    if !Bound(ev.hash, ev.policyBytes, manifest.policySha256) {
      return false;
    }
    var decoded := ev.decodePolicy(ev.policyBytes.value);
    if decoded.None? {
      return false;
    }
    var policy := decoded.value;
    if policy.formatVersion != 1 || policy.epochId != ev.epoch || policy.parentGenerationId != ev.parentId
       || policy.parentSource != manifest.parentSource
    {
      return false;
    }
    if !Bound(ev.hash, ev.briefBytes, policy.briefSha256)
       || !Bound(ev.hash, ev.scoringBytes, policy.scoringSha256)
    {
      return false;
    }
    ok := VerifyInventory(ev.hash, policy.sourceFiles, source);
    if !ok { return; }
    var roots;
    ok, roots := VerifyRoots(policy.enumerationRoots, ev.canonicalRoots);
    if !ok { return; }
    var index;
    ok, index := IndexPoints(policy.points, roots);
    if !ok { return; }
    ok := MatchDeclarations(manifest.files, policy.points, index);
  }

  lemma {:induction false} KeyCount(spans: seq<Declaration>)
    requires forall i, j :: 0 <= i < j < |spans| ==> spans[i].Key() != spans[j].Key()
    ensures |Keys(spans)| == |spans|
  {
    if spans != [] {
      var init := spans[..|spans| - 1];
      KeyCount(init);
      assert spans == init + [spans[|spans| - 1]];
      assert Keys(spans) == Keys(init) + {spans[|spans| - 1].Key()};
    }
  }

  lemma {:induction false} PointKeyCount(points: seq<PolicyPoint>)
    requires forall i, j :: 0 <= i < j < |points| ==> points[i].Key() != points[j].Key()
    ensures |PointKeys(points)| == |points|
  {
    if points != [] {
      var init := points[..|points| - 1];
      PointKeyCount(init);
      assert points == init + [points[|points| - 1]];
      assert PointKeys(points) == PointKeys(init) + {points[|points| - 1].Key()};
    }
  }

  /** The point a declaration stands for: everything but where it is in the child. */
  function PointOf(d: Declaration): PolicyPoint {
    PolicyPoint(d.path, d.span.id, d.span.kind, d.span.op, d.span.start, d.span.end,
                d.span.sourceSha256, d.span.contentHash, d.span.metadata, d.span.forbidden)
  }

  /** A bound policy pairs the manifest's declarations with the captured points: a
      permutation under which each declaration stands for its point. */
  lemma PolicyPairing(ev: Evidence, manifest: Manifest, source: Tree)
    returns (points: seq<PolicyPoint>, pairing: seq<nat>)
    requires PolicyBound(ev, manifest, source)
    ensures points == ev.decodePolicy(ev.policyBytes.value).value.points
    ensures |pairing| == |points| == |Declared(manifest.files)|
    ensures Distinct(pairing)
    ensures forall i :: 0 <= i < |pairing| ==>
              pairing[i] < |points| && points[pairing[i]] == PointOf(Declared(manifest.files)[i])
  {
    var policy := ev.decodePolicy(ev.policyBytes.value).value;
    var spans := Declared(manifest.files);
    points := policy.points;
    KeyCount(spans);
    PointKeyCount(points);
    pairing := [];
    while |pairing| < |spans|
      invariant |pairing| <= |spans|
      invariant forall i :: 0 <= i < |pairing| ==>
                  pairing[i] < |points| && points[pairing[i]].Matches(spans[i])
    {
      assert Captured(spans[|pairing|], points);
      var j: nat :| j < |points| && points[j].Matches(spans[|pairing|]);
      pairing := pairing + [j];
    }
    forall i, j | 0 <= i < j < |pairing| ensures pairing[i] != pairing[j] {
      assert spans[i].Key() != spans[j].Key();
    }
  }
}
