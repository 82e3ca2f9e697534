/** File-level containment: outside the mutable surface a child snapshot must be
    its parent, and along a lineage it must be the root. */
module DiffContainment {
  import opened Common

  /** One part of a relative path; a name that is not UTF-8 has no text. */
  datatype Component = Name(text: string) | Opaque(bytes: seq<Byte>)

  type Path = seq<Component>

  /** What reading a file gave; None when it could not be read. */
  type Content = Option<seq<Byte>>

  type Hashes = map<Path, string>

  datatype Kind = Changed | Added | Deleted

  datatype Violation = Violation(path: string, kind: Kind)

  datatype Attestation = Attestation(contained: bool, violations: seq<Violation>, skipped: bool)

  // ---- the mutable surface ------------------------------------------------

  /** A path's parts without the empty and "." ones. */
  function Meaningful(parts: seq<string>): seq<string> {
    if parts == [] then []
    else
      var rest := Meaningful(parts[..|parts| - 1]);
      var last := parts[|parts| - 1];
      if last == "" || last == "." then rest else rest + [last]
  }

  /** `Path::file_name`. */
  function BaseName(tree: string): Option<string> {
    var parts := Meaningful(Split(tree, '/'));
    if parts == [] || parts[|parts| - 1] == ".." then None else Some(parts[|parts| - 1])
  }

  /** The loop of `mutable_basenames`. */
  method MutableBasenames(trees: seq<string>) returns (names: set<string>)
    ensures names == Surface(trees)
  {
    names := {};
    for i := 0 to |trees|
      invariant names == Surface(trees[..i])
    {
      assert trees[..i + 1][..i] == trees[..i];
      var base := BaseName(trees[i]);
      names := names + if base.Some? then {base.value} else {};
    }
    assert trees[..|trees|] == trees;
  }

  function Surface(trees: seq<string>): set<string> {
    if trees == [] then {}
    else
      var base := BaseName(trees[|trees| - 1]);
      Surface(trees[..|trees| - 1]) + if base.Some? then {base.value} else {}
  }

  predicate InBounds(path: Path, names: set<string>) {
    names == {} || (path != [] && path[0].Name? && path[0].text in names)
  }

  /** A name is on the surface exactly when some tree ends in it. */
  lemma {:induction false} SurfaceHolds(trees: seq<string>, name: string)
    ensures name in Surface(trees) <==> exists i :: 0 <= i < |trees| && BaseName(trees[i]) == Some(name)
  {
    if trees != [] {
      var n := |trees| - 1;
      SurfaceHolds(trees[..n], name);
      forall i | 0 <= i < n ensures trees[i] == trees[..n][i] {}
    }
  }

  lemma {:induction false} MeaningfulJoined(a: seq<string>, b: seq<string>)
    ensures Meaningful(a + b) == Meaningful(a) + Meaningful(b)
  {
    if b == [] {
      assert a + b == a;
    } else {
      var n := |b| - 1;
      MeaningfulJoined(a, b[..n]);
      assert (a + b)[..|a| + n] == a + b[..n];
    }
  }

  /** A registered tree is known inside a snapshot by its last ordinary name. */
  lemma TreeBasename(dir: string, name: string)
    requires '/' !in name && name != "" && name != "." && name != ".."
    ensures BaseName(dir + "/" + name) == Some(name)
    ensures BaseName(name) == Some(name)
  {
    SinglePiece(name, '/');
    SplitAt(dir, '/', name);
    MeaningfulJoined(Split(dir, '/'), [name]);
    assert [name][..0] == [];
  }

  /** A trailing slash or "/." changes nothing. */
  lemma TrailingSlash(tree: string)
    ensures BaseName(tree + "/" + "") == BaseName(tree) && BaseName(tree + "/" + ".") == BaseName(tree)
  {
    SinglePiece("", '/');
    SinglePiece(".", '/');
    SplitAt(tree, '/', "");
    SplitAt(tree, '/', ".");
    MeaningfulJoined(Split(tree, '/'), [""]);
    MeaningfulJoined(Split(tree, '/'), ["."]);
    assert [""][..0] == [] && ["."][..0] == [];
  }

  predicate Skipped(part: string) { part == "" || part == "." }

  lemma {:induction false} LastMeaningful(parts: seq<string>, i: nat)
    requires i < |parts| && !Skipped(parts[i]) && forall j :: i < j < |parts| ==> Skipped(parts[j])
    ensures Meaningful(parts) != [] && Meaningful(parts)[|Meaningful(parts)| - 1] == parts[i]
  {
    if i < |parts| - 1 {
      LastMeaningful(parts[..|parts| - 1], i);
    }
  }

  lemma {:induction false} NoneMeaningful(parts: seq<string>)
    ensures Meaningful(parts) == [] <==> forall j :: 0 <= j < |parts| ==> Skipped(parts[j])
  {
    if parts != [] {
      NoneMeaningful(parts[..|parts| - 1]);
    }
  }

  /** Part i is the last that counts. */
  ghost predicate LastPart(tree: string, i: nat) {
    var parts := Split(tree, '/');
    i < |parts| && !Skipped(parts[i]) && forall j :: i < j < |parts| ==> Skipped(parts[j])
  }

  /** A tree's name is its last part that is neither empty nor "."; there is none if
      no part counts or that part is "..". */
  lemma BaseNameIff(tree: string, name: string)
    ensures BaseName(tree) == Some(name) <==>
              name != ".." && exists i: nat :: LastPart(tree, i) && Split(tree, '/')[i] == name
  {
    var parts := Split(tree, '/');
    forall i: nat | LastPart(tree, i) ensures BaseName(tree) == if parts[i] == ".." then None else Some(parts[i]) {
      LastMeaningful(parts, i);
    }
    NoneMeaningful(parts);
    if Meaningful(parts) != [] {
      var i := LastCounting(parts);
      assert LastPart(tree, i);
    }
  }

  lemma {:induction false} LastCounting(parts: seq<string>) returns (i: nat)
    requires exists j :: 0 <= j < |parts| && !Skipped(parts[j])
    ensures i < |parts| && !Skipped(parts[i]) && forall j :: i < j < |parts| ==> Skipped(parts[j])
  {
    i := |parts| - 1;
    if Skipped(parts[i]) {
      i := LastCounting(parts[..i]);
    }
  }

  /** A path may change freely if and only if its first part is the name of a
      registered tree, or no registered tree has a name. */
  lemma InBoundsIff(path: Path, trees: seq<string>)
    ensures InBounds(path, Surface(trees)) <==>
              || (forall i :: 0 <= i < |trees| ==> BaseName(trees[i]).None?)
              || (&& path != [] && path[0].Name?
                  && exists i :: 0 <= i < |trees| && BaseName(trees[i]) == Some(path[0].text))
  {
    if path != [] && path[0].Name? {
      SurfaceHolds(trees, path[0].text);
    }
    if i :| 0 <= i < |trees| && BaseName(trees[i]).Some? {
      SurfaceHolds(trees, BaseName(trees[i]).value);
    } else if name :| name in Surface(trees) {
      SurfaceHolds(trees, name);
      assert false;
    }
  }

  // ---- the attestation ----------------------------------------------------

  function Get<V>(m: map<Path, V>, p: Path): Option<V> {
    if p in m then Some(m[p]) else None
  }

  ghost predicate Agree(parent: Hashes, child: Hashes, names: set<string>) {
    forall p: Path :: !InBounds(p, names) ==> Get(parent, p) == Get(child, p)
  }

  ghost predicate Differs(p: Path, parent: Hashes, child: Hashes, names: set<string>) {
    !InBounds(p, names) && Get(parent, p) != Get(child, p)
  }

  /** The violation that describes a difference. */
  ghost predicate Describes(v: Violation, p: Path, parent: Hashes, child: Hashes) {
    && v.path == RelKey(p)
    && (v.kind == Changed <==> p in parent && p in child)
    && (v.kind == Added <==> p !in parent)
    && (v.kind == Deleted <==> p !in child)
  }

  ghost predicate Listed(vs: seq<Violation>, paths: seq<Path>, parent: Hashes, child: Hashes) {
    |vs| == |paths| && forall i :: 0 <= i < |vs| ==> Describes(vs[i], paths[i], parent, child)
  }

  /** The violations describe, once each, the differing paths among those seen. */
  ghost predicate Covers(vs: seq<Violation>, paths: seq<Path>, seen: set<Path>,
                         parent: Hashes, child: Hashes, names: set<string>) {
    && Distinct(paths) && Listed(vs, paths, parent, child)
    && forall p :: p in paths <==> p in seen && Differs(p, parent, child, names)
  }

  lemma CoversMore(vs: seq<Violation>, paths: seq<Path>, seen: set<Path>, rel: Path, v: Violation,
                   parent: Hashes, child: Hashes, names: set<string>)
    requires Covers(vs, paths, seen, parent, child, names) && rel !in seen
    requires Differs(rel, parent, child, names) && Describes(v, rel, parent, child)
    ensures Covers(vs + [v], paths + [rel], seen + {rel}, parent, child, names)
  {
    forall i | 0 <= i < |paths| ensures paths[i] != rel { assert paths[i] in paths; }
    forall p ensures p in paths + [rel] <==> p in seen + {rel} && Differs(p, parent, child, names) {
      assert p in paths + [rel] <==> p in paths || p == rel;
    }
  }

  lemma CoversAll(vs: seq<Violation>, paths: seq<Path>, parent: Hashes, child: Hashes, names: set<string>)
    requires Covers(vs, paths, parent.Keys + child.Keys, parent, child, names)
    ensures forall p :: p in paths <==> Differs(p, parent, child, names)
    ensures vs == [] <==> Agree(parent, child, names)
  {
    if vs == [] {
      forall p: Path | !InBounds(p, names) ensures Get(parent, p) == Get(child, p) {
        assert p !in paths;
      }
    } else {
      assert paths[0] in paths;
    }
  }

  /** The comparison loop. `paths` are the paths behind the violations. */
  method Compare(parent: Hashes, child: Hashes, names: set<string>)
    returns (violations: seq<Violation>, ghost paths: seq<Path>)
    ensures Distinct(paths) && Listed(violations, paths, parent, child)
    ensures forall p :: p in paths <==> Differs(p, parent, child, names)
    ensures violations == [] <==> Agree(parent, child, names)
  {
    var all := parent.Keys + child.Keys;
    var seen: set<Path> := {};
    violations, paths := [], [];
    while seen != all
      invariant seen <= all
      invariant Covers(violations, paths, seen, parent, child, names)
      decreases all - seen
    {
      ghost var _ := Unseen(seen, all);
      var rel :| rel in all && rel !in seen;
      if !InBounds(rel, names) && Get(parent, rel) != Get(child, rel) {
        var kind := if rel !in parent then Added else if rel !in child then Deleted else Changed;
        var v := Violation(RelKey(rel), kind);
        CoversMore(violations, paths, seen, rel, v, parent, child, names);
        violations, paths := violations + [v], paths + [rel];
      }
      seen := seen + {rel};
    }
    CoversAll(violations, paths, parent, child, names);
  }

  /** `hash_tree`: files that cannot be read are left out; no directory, no map. */
  function HashTree(hash: seq<Byte> -> string, root: Option<map<Path, Content>>): Option<Hashes> {
    if root.None? then None
    else Some(map p | p in root.value && root.value[p].Some? :: hash(root.value[p].value))
  }

  /** `attest`. */
  method Attest(hash: seq<Byte> -> string, parent: Option<map<Path, Content>>, child: Option<map<Path, Content>>,
                trees: seq<string>) returns (a: Attestation, ghost paths: seq<Path>)
    ensures a.skipped <==> parent.None? || child.None?
    ensures a.skipped ==> a.contained && a.violations == []
    ensures a.contained <==> a.violations == []
    ensures !a.skipped ==>
              var p, c := HashTree(hash, parent).value, HashTree(hash, child).value;
              && (a.contained <==> Agree(p, c, Surface(trees)))
              && Distinct(paths) && Listed(a.violations, paths, p, c)
              && forall q :: q in paths <==> Differs(q, p, c, Surface(trees))
  {
    var parentHashes, childHashes := HashTree(hash, parent), HashTree(hash, child);
    paths := [];
    if parentHashes.None? || childHashes.None? {
      a := Attestation(true, [], true);
    } else {
      var names := MutableBasenames(trees);
      var violations;
      violations, paths := Compare(parentHashes.value, childHashes.value, names);
      a := Attestation(violations == [], violations, false);
    }
  }

  /** The surface is the whole snapshot, and everything passes, exactly when no
      registered tree has a usable name: not only when none is registered. */
  lemma EverythingPassesIff(trees: seq<string>)
    ensures (forall i :: 0 <= i < |trees| ==> BaseName(trees[i]).None?)
            <==> forall parent: Hashes, child: Hashes :: Agree(parent, child, Surface(trees))
  {
    if forall i :: 0 <= i < |trees| ==> BaseName(trees[i]).None? {
      forall name ensures name !in Surface(trees) {
        SurfaceHolds(trees, name);
      }
      assert Surface(trees) == {};
    } else {
      var i :| 0 <= i < |trees| && BaseName(trees[i]).Some?;
      SurfaceHolds(trees, BaseName(trees[i]).value);
      var name := FreshName(Surface(trees));
      var stray: Path := [Name(name)];
      var child: Hashes := map[stray := "hash"];
      assert Get(map[], stray) != Get(child, stray) && !InBounds(stray, Surface(trees));
      assert !Agree(map[], child, Surface(trees));
    }
  }

  /** Some file name is not on a surface. */
  lemma FreshName(names: set<string>) returns (name: string)
    ensures name !in names && name != "" && '/' !in name
  {
    var n := LongerThanAll(names);
    name := Repeat('a', n);
  }

  lemma {:induction false} LongerThanAll(names: set<string>) returns (n: nat)
    ensures n > 0 && forall name <- names :: |name| < n
    decreases names
  {
    n := 1;
    if x :| x in names {
      var m := LongerThanAll(names - {x});
      n := if m > |x| then m else |x| + 1;
    }
  }

  // ---- what containment means for the files -------------------------------

  function ReadBytes(tree: map<Path, Content>, p: Path): Option<seq<Byte>> {
    if p in tree then tree[p] else None
  }

  /** The two contents of p are different and have one hash. */
  predicate CollideAt(hash: seq<Byte> -> string, parent: map<Path, Content>, child: map<Path, Content>, p: Path) {
    var a, b := ReadBytes(parent, p), ReadBytes(child, p);
    a.Some? && b.Some? && a.value != b.value && hash(a.value) == hash(b.value)
  }

  lemma HashesAt(hash: seq<Byte> -> string, parent: map<Path, Content>, child: map<Path, Content>, p: Path)
    ensures Get(HashTree(hash, Some(parent)).value, p) == Get(HashTree(hash, Some(child)).value, p) <==>
              ReadBytes(parent, p) == ReadBytes(child, p) || CollideAt(hash, parent, child, p)
  {
    var a, b := ReadBytes(parent, p), ReadBytes(child, p);
    assert Get(HashTree(hash, Some(parent)).value, p) == if a.Some? then Some(hash(a.value)) else None;
    assert Get(HashTree(hash, Some(child)).value, p) == if b.Some? then Some(hash(b.value)) else None;
  }

  /** Agreement of hashes is agreement of every byte that could be read, but for
      files whose own two contents collide. */
  lemma AgreeMeansBytes(hash: seq<Byte> -> string, parent: map<Path, Content>, child: map<Path, Content>,
                        names: set<string>)
    ensures Agree(HashTree(hash, Some(parent)).value, HashTree(hash, Some(child)).value, names) <==>
              forall p: Path :: !InBounds(p, names) ==>
                ReadBytes(parent, p) == ReadBytes(child, p) || CollideAt(hash, parent, child, p)
  {
    forall p: Path
      ensures Get(HashTree(hash, Some(parent)).value, p) == Get(HashTree(hash, Some(child)).value, p) <==>
                ReadBytes(parent, p) == ReadBytes(child, p) || CollideAt(hash, parent, child, p)
    {
      HashesAt(hash, parent, child, p);
    }
  }

  /** A file that exists on both sides but cannot be read on one is reported as
      added or deleted; it stays out of the diff only when neither side reads. */
  lemma UnreadableTakesNoPart(hash: seq<Byte> -> string, parent: map<Path, Content>, child: map<Path, Content>,
                              names: set<string>, p: Path)
    requires p in parent && p in child && (parent[p].None? || child[p].None?) && !InBounds(p, names)
    ensures Differs(p, HashTree(hash, Some(parent)).value, HashTree(hash, Some(child)).value, names)
            <==> parent[p].Some? || child[p].Some?
  {
  }

  /** Along contained, unskipped steps every file outside the surface keeps the
      root's hash; and its bytes, unless at some step its own two contents were
      different and had one hash. */
  lemma {:induction false} LineageKeepsRoot(hash: seq<Byte> -> string, line: seq<map<Path, Content>>,
                                            names: set<string>, n: nat, p: Path)
    requires n < |line| && !InBounds(p, names)
    requires forall i :: 0 <= i < |line| - 1 ==>
               Agree(HashTree(hash, Some(line[i])).value, HashTree(hash, Some(line[i + 1])).value, names)
    ensures Get(HashTree(hash, Some(line[n])).value, p) == Get(HashTree(hash, Some(line[0])).value, p)
    ensures ReadBytes(line[n], p) == ReadBytes(line[0], p)
            || exists i :: 0 <= i < n && CollideAt(hash, line[i], line[i + 1], p)
  {
    if n > 0 {
      LineageKeepsRoot(hash, line, names, n - 1, p);
      assert Agree(HashTree(hash, Some(line[n - 1])).value, HashTree(hash, Some(line[n - 1 + 1])).value, names);
      HashesAt(hash, line[n - 1], line[n - 1 + 1], p);
    }
  }

  // ---- the reported path --------------------------------------------------

  /** `rel_key`: the names joined by slashes; names without text are dropped. */
  function RelKey(p: Path): string {
    Join(Texts(p), '/')
  }

  function Texts(p: Path): seq<string> {
    if p == [] then []
    else Texts(p[..|p| - 1]) + if p[|p| - 1].Name? then [p[|p| - 1].text] else []
  }

  /** A path of ordinary file names. */
  ghost predicate Ordinary(p: Path) {
    p != [] && forall c <- p :: c.Name? && '/' !in c.text
  }

  lemma {:induction false} TextsOf(p: Path)
    requires forall c <- p :: c.Name?
    ensures |Texts(p)| == |p| && forall i :: 0 <= i < |p| ==> p[i] == Name(Texts(p)[i])
  {
    if p != [] {
      TextsOf(p[..|p| - 1]);
      assert p[|p| - 1] in p;
    }
  }

  /** A reported path names one file when the names are UTF-8. */
  lemma KeyNamesOneFile(p: Path, q: Path)
    requires Ordinary(p) && Ordinary(q) && RelKey(p) == RelKey(q)
    ensures p == q
  {
    TextsOf(p);
    TextsOf(q);
    forall i | 0 <= i < |p| ensures '/' !in Texts(p)[i] { assert p[i] in p; }
    forall i | 0 <= i < |q| ensures '/' !in Texts(q)[i] { assert q[i] in q; }
    JoinSplits(Texts(p), '/');
    JoinSplits(Texts(q), '/');
  }

  /** With a name that is not UTF-8, two files can be reported alike. */
  lemma OpaqueNamesCollide(p: Path, a: seq<Byte>, b: seq<Byte>)
    ensures RelKey(p + [Opaque(a)]) == RelKey(p + [Opaque(b)]) == RelKey(p)
  {
    assert (p + [Opaque(a)])[..|p|] == p && (p + [Opaque(b)])[..|p|] == p;
    assert Texts(p + [Opaque(a)]) == Texts(p) && Texts(p + [Opaque(b)]) == Texts(p);
  }
}
