/** An accepted generation: one allowed byte replaced by two. Whatever the hash,
    the conditions that `Contained` stands for can all be met at once. */
module RangeExample {
  import opened Common
  import opened RangeEvidence
  import opened RangePolicy
  import opened RangeSplice
  import opened RangeContainment
  import opened RangeBinding
  import opened RangeRecord

  const OLD: seq<Byte> := [1]
  const NEW: seq<Byte> := [2, 3]
  const CHANGE: ByteChange := ByteChange(0, 1, 0, 2)

  const BODY: PatchBody := PatchBody(Some("x"), Some("u"), Some("replace"))

  const BEFORE: Tree := map["f" := SourceFile(OLD, false)]
  const AFTER: Tree := map["f" := SourceFile(NEW, false)]

  function Replace(h: Hash): Operation {
    Operation("f", "u", "span", "replace", Interval(0, 1), Some(Interval(0, 2)), h(OLD), [], false)
  }

  function Made(h: Hash): Generation {
    Generation("e", "p", "c", "p", "c", BEFORE, AFTER, ["f"], ["f"], ["."], [Replace(h)], (path: string) => [CHANGE],
               [Patch("x", [])], [], [])
  }

  function Sample(h: Hash): Evidence {
    Evidence(
      h, "e", "p", "c", Decoded(ManifestOf(h, Made(h), h([]))), Some(Roots(Some("p"), Some("c"))), Some(BEFORE),
      Some(AFTER), Some([]), bytes => Some(PolicyRecord(h, Made(h))), Some([]), Some([]), {"."},
      Decoded(Experiment(Some("e"), Some("c"), Some("p"), Some(["x"]))), map["x" := []], bytes => Some(BODY))
  }

  lemma ShortName(name: string)
    requires |name| == 1 && name[0] != '/' && name[0] != '\\' && name[0] != '\0' && name[0] != '.'
    ensures SafeRelative(name) && '/' !in name
  {
    SinglePiece(name, '/');
  }

  lemma CoverageHolds()
    ensures Coverage([CHANGE], OLD, NEW, 0, 0)
  {
    assert Placed(CHANGE, 0, 0, |OLD|, |NEW|) && [CHANGE][1..] == [];
    assert OLD[1..] == NEW[2..] && OLD[0..0] == NEW[0..0];
  }

  lemma TreesAreSensible(h: Hash)
    ensures SensibleTrees(Made(h))
  {
    ShortName("f");
    CoverageHolds();
  }

  lemma OpsAreSensible(h: Hash)
    requires IsDigest(h(OLD))
    ensures SensibleOps(Made(h))
  {
    var g := Made(h);
    assert "." in g.roots && Under("f", ".");
    assert SensibleOp(g, Replace(h));
  }

  lemma PatchesAreSensible(h: Hash)
    ensures SensiblePatches(Made(h), Sample(h).decodePatch)
  {
    var g := Made(h);
    ShortName("x");
    assert Replace(h) in g.ops && Applies(Replace(h), g.patches[0], Sample(h).decodePatch);
  }

  lemma NamesAreSensible(h: Hash)
    ensures SensibleNames(Made(h))
  {
    ShortName("e");
    ShortName("p");
    ShortName("c");
  }

  lemma SampleHolds(h: Hash)
    requires SensibleTrees(Made(h))
    ensures Holds(Sample(h), Made(h))
  {
    assert IdsOf(Made(h)) == ["x"];
  }

  lemma IsSensible(h: Hash)
    requires IsDigest(h(OLD))
    ensures Sensible(Made(h), Sample(h).decodePatch)
  {
    NamesAreSensible(h);
    TreesAreSensible(h);
    OpsAreSensible(h);
    PatchesAreSensible(h);
  }

  lemma KeepsToPolicy(h: Hash)
    ensures (forall p <- Made(h).paths :: KeepsPolicy(h, Made(h), p)) && TargetsAllowed(Made(h), Sample(h).decodePatch)
  {
    assert Replace(h) in Made(h).ops && AllowedBy(Replace(h), CHANGE);
  }

  /** Some evidence with a real change in it is answered Contained. */
  lemma SomethingIsContained(h: Hash)
    requires forall bytes :: IsDigest(h(bytes))
    ensures EvidenceBound(Sample(h)) && ChangesWithin(Sample(h))
    ensures Sample(h).parentTree != Sample(h).childTree
  {
    IsSensible(h);
    SampleHolds(h);
    KeepsToPolicy(h);
    KeptIsContained(Sample(h), Made(h));
    assert BEFORE["f"].bytes != AFTER["f"].bytes;
  }
}
