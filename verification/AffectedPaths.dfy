/** What the path rules of test selection mean, path by path. */
module AffectedPaths {
  import opened Common
  import opened ImportGraph
  import opened AffectedTests

  // ---- names --------------------------------------------------------------

  lemma EndsWithIff(s: string, end: string)
    ensures EndsWith(s, end) <==> exists head: string :: s == head + end
  {
    if EndsWith(s, end) {
      assert s == s[..|s| - |end|] + end;
    }
  }

  ghost predicate FoundAt(s: string, part: string, i: nat) {
    i + |part| <= |s| && s[i..i + |part|] == part
  }

  lemma FoundLater(s: string, part: string, i: nat)
    requires s != []
    ensures FoundAt(s, part, i + 1) <==> FoundAt(s[1..], part, i)
  {
    if i + 1 + |part| <= |s| {
      assert s[i + 1..i + 1 + |part|] == s[1..][i..i + |part|];
    }
  }

  /** A text contains another exactly if it is found at some offset. */
  lemma {:induction false} ContainsIff(s: string, part: string)
    ensures Contains(s, part) <==> exists i: nat :: FoundAt(s, part, i)
  {
    if part <= s {
      assert FoundAt(s, part, 0);
    } else if s != [] {
      ContainsIff(s[1..], part);
      if i: nat :| FoundAt(s[1..], part, i) {
        FoundLater(s, part, i);
      }
      if i: nat :| FoundAt(s, part, i) {
        assert i > 0;
        FoundLater(s, part, i - 1);
      }
    }
  }

  /** A path's file name is what follows its last slash. */
  lemma FileNameIs(dir: string, name: string)
    requires '/' !in name
    ensures FileName(name) == name && FileName(dir + "/" + name) == name
  {
    SinglePiece(name, '/');
    SplitAt(dir, '/', name);
  }

  lemma EveryPathHasName(rel: string) returns (dir: string, name: string)
    ensures '/' !in name && (rel == name || rel == dir + "/" + name) && FileName(rel) == name
  {
    var parts := Split(rel, '/');
    SplitJoins(rel, '/');
    PiecesHoldNoSeparator(rel, '/');
    name := parts[|parts| - 1];
    assert name in parts;
    dir := Join(parts[..|parts| - 1], '/');
  }

  /** Its suffix is the last dot and what follows, if something precedes the dot and
      something follows it. */
  lemma SuffixIs(rel: string, stem: string, ext: string)
    requires FileName(rel) == stem + "." + ext && '.' !in ext
    ensures Suffix(rel) == if stem != "" && ext != "" then "." + ext else ""
  {
    SinglePiece(ext, '.');
    SplitAt(stem, '.', ext);
  }

  lemma NoSuffix(rel: string)
    requires '.' !in FileName(rel)
    ensures Suffix(rel) == ""
  {
    SinglePiece(FileName(rel), '.');
  }

  /** Lower case: only capital letters change, each to the letter as far from 'a' as
      it is from 'A'. */
  lemma LowerAt(s: string, i: nat)
    requires i < |s|
    ensures |Lower(s)| == |s|
    ensures 'A' <= s[i] <= 'Z' ==>
              'a' <= Lower(s)[i] <= 'z' && Lower(s)[i] as int - 'a' as int == s[i] as int - 'A' as int
    ensures !('A' <= s[i] <= 'Z') ==> Lower(s)[i] == s[i]
  {
  }

  // ---- modules ------------------------------------------------------------

  /** The dotted name of a file below one of the package roots. */
  function Dotted(package: string, parts: seq<string>): string
    requires parts != []
  {
    Join([package] + if parts[|parts| - 1] == "__init__" then parts[..|parts| - 1] else parts, '.')
  }

  lemma ModuleBelow(rel: string, package: string, root: string, more: seq<(string, string)>, parts: seq<string>)
    requires parts != [] && (forall p <- parts :: '/' !in p) && rel == root + "/" + (Join(parts, '/') + ".py")
    ensures ModuleUnder(rel, [(package, root)] + more) == Some(Dotted(package, parts))
  {
    var tail := Join(parts, '/') + ".py";
    assert root + "/" <= rel && rel[|root| + 1..] == tail;
    assert tail[..|tail| - 3] == Join(parts, '/') && tail[|tail| - 3..] == ".py";
    JoinSplits(parts, '/');
    assert ([(package, root)] + more)[0] == (package, root);
  }

  lemma ModuleElsewhere(rel: string, package: string, root: string, more: seq<(string, string)>)
    requires !(root + "/" <= rel)
    ensures ModuleUnder(rel, [(package, root)] + more) == ModuleUnder(rel, more)
  {
    assert ([(package, root)] + more)[1..] == more;
  }

  /** The file at these parts below a root. */
  function Below(root: string, parts: seq<string>): string { root + "/" + (Join(parts, '/') + ".py") }

  const TOOLS: seq<(string, string)> := [("tools", "tools")]
  const TESTS: seq<(string, string)> := [("tests", "tests")] + TOOLS
  const EXAMPLES: seq<(string, string)> := [("zicato_examples", "examples/zicato_examples")] + TESTS

  /** A Python file below a package root defines the module of its path; a package's
      `__init__` defines the package. */
  lemma ModuleNameIs(package: string, root: string, parts: seq<string>)
    requires (package, root) in PACKAGE_ROOTS && parts != [] && forall p <- parts :: '/' !in p
    ensures ModuleName(Below(root, parts)) == Some(Dotted(package, parts))
  {
    var rel := Below(root, parts);
    assert PACKAGE_ROOTS == [("zicato", "src/zicato")] + EXAMPLES;
    if root == "src/zicato" {
      ModuleBelow(rel, package, root, EXAMPLES, parts);
    } else {
      assert rel[0] == root[0] && ("src/zicato" + "/")[0] == 's' && root[0] != 's';
      ModuleElsewhere(rel, "zicato", "src/zicato", EXAMPLES);
      LaterModuleIs(package, root, parts);
    }
  }

  lemma LaterModuleIs(package: string, root: string, parts: seq<string>)
    requires || (package == "zicato_examples" && root == "examples/zicato_examples")
             || (package == root && (root == "tests" || root == "tools"))
    requires parts != [] && forall p <- parts :: '/' !in p
    ensures ModuleUnder(Below(root, parts), EXAMPLES) == Some(Dotted(package, parts))
  {
    var rel := Below(root, parts);
    if root == "examples/zicato_examples" {
      ModuleBelow(rel, package, root, TESTS, parts);
    } else {
      assert rel[0] == root[0] == 't' && ("examples/zicato_examples" + "/")[0] == 'e';
      ModuleElsewhere(rel, "zicato_examples", "examples/zicato_examples", TESTS);
      LastModuleIs(root, parts);
    }
  }

  lemma LastModuleIs(root: string, parts: seq<string>)
    requires root == "tests" || root == "tools"
    requires parts != [] && forall p <- parts :: '/' !in p
    ensures ModuleUnder(Below(root, parts), TESTS) == Some(Dotted(root, parts))
  {
    var rel := Below(root, parts);
    if root == "tests" {
      ModuleBelow(rel, root, root, TOOLS, parts);
    } else {
      assert rel[1] == root[1] == 'o' && ("tests" + "/")[1] == 'e';
      ModuleElsewhere(rel, "tests", "tests", TOOLS);
      assert TOOLS == TOOLS + [];
      ModuleBelow(rel, root, root, [], parts);
    }
  }

  /** A file below none of the roots defines no module, and neither does one that is
      not Python. */
  lemma NoModule(rel: string)
    ensures !EndsWith(rel, ".py") ==> ModuleName(rel).None?
    ensures (forall r <- PACKAGE_ROOTS :: !(r.1 + "/" <= rel)) ==> ModuleName(rel).None?
  {
    if ModuleName(rel).Some? {
      ModulesArePython(rel, PACKAGE_ROOTS);
      var r := ModuleHasRoot(rel, PACKAGE_ROOTS);
    }
  }

  lemma {:induction false} ModuleHasRoot(rel: string, roots: seq<(string, string)>) returns (r: (string, string))
    requires ModuleUnder(rel, roots).Some?
    ensures r in roots && r.1 + "/" <= rel
  {
    r := roots[0];
    if !(r.1 + "/" <= rel) {
      r := ModuleHasRoot(rel, roots[1..]);
    }
  }

  // ---- the rules ----------------------------------------------------------

  /** What every test depends on. */
  lemma SharedIff(rel: string)
    ensures SharedByAll(rel) <==>
              || FileName(rel) == "conftest.py"
              || "tests/conftest.py" <= rel || "pyproject.toml" <= rel || "uv.lock" <= rel || "tools/parity/" <= rel
  {
    assert ALWAYS_FULL_SUITE[0] in ALWAYS_FULL_SUITE && ALWAYS_FULL_SUITE[1] in ALWAYS_FULL_SUITE;
    assert ALWAYS_FULL_SUITE[2] in ALWAYS_FULL_SUITE && ALWAYS_FULL_SUITE[3] in ALWAYS_FULL_SUITE;
  }

  /** Prose: a text document in a prose tree, or one of the two at the top. */
  lemma ProseIff(rel: string)
    ensures IsProse(rel) <==>
              && (Lower(Suffix(rel)) == ".md" || Lower(Suffix(rel)) == ".rst" || Lower(Suffix(rel)) == ".txt")
              && ("docs/" <= rel || "skills/" <= rel || rel == "README.md" || rel == "CHANGELOG.md")
  {
    assert PROSE_TREES[0] in PROSE_TREES && PROSE_TREES[1] in PROSE_TREES;
    assert PROSE_TREES[2] in PROSE_TREES && PROSE_TREES[3] in PROSE_TREES;
    assert EndsWith("docs/", "/") && EndsWith("skills/", "/");
    assert "README.md"[8..] == "d" && "CHANGELOG.md"[11..] == "d";
    assert "d"[0] != "/"[0];
  }

  /** A test file: a test module of the two trees, by its file name, outside the
      parity tooling. */
  lemma TestFileIff(table: Table, rel: string)
    ensures rel in TestFiles(table) <==> exists name <- table ::
              && table[name] == rel && ("tests." <= name || "tools." <= name)
              && "test_" <= FileName(rel) && !("tools/parity/" <= rel)
  {
  }

  /** The changed paths: the branch's, and with the worktree its three kinds too. */
  lemma ChangedIff(c: Comparison, rel: string)
    ensures rel in c.Changed() <==>
              rel in c.branch || (c.includeWorktree && (rel in c.staged || rel in c.unstaged || rel in c.untracked))
  {
  }

  // ---- triage -------------------------------------------------------------

  /** A path whose dependents the import graph or the literals can tell. */
  ghost predicate Readable(repo: Repo, rel: string) {
    repo.present(rel) && !SharedByAll(rel)
  }

  ghost predicate Searched(rel: string) {
    !EndsWith(rel, ".py") && (IsProse(rel) || rel == ".line-budget.json")
  }

  ghost predicate Defines(table: Table, rel: string) {
    exists m <- table :: ModuleName(rel) == Some(m)
  }

  /** When each full-suite reason holds. */
  ghost predicate Holds(repo: Repo, table: Table, reason: Reason) {
    match reason
    case Deleted(rel) => !repo.present(rel)
    case EveryTest(rel) => repo.present(rel) && SharedByAll(rel)
    case NotPython(rel) => Readable(repo, rel) && !EndsWith(rel, ".py") && !Searched(rel)
    case NotModule(rel) => Readable(repo, rel) && EndsWith(rel, ".py") && !Defines(table, rel)
    case Dynamic(rel) => Readable(repo, rel) && EndsWith(rel, ".py") && Defines(table, rel) && repo.unresolved(rel)
    case Untracked(_) => false
  }

  lemma ReasonOf(repo: Repo, table: Table, rel: string, reason: Reason)
    ensures ReasonFor(repo, table, rel) == Some(reason) <==> reason.rel == rel && Holds(repo, table, reason)
  {
    if Readable(repo, rel) && EndsWith(rel, ".py") {
      PythonReason(repo, table, rel, reason);
    } else if Readable(repo, rel) {
      OtherReason(repo, table, rel, reason);
    }
  }

  lemma PythonReason(repo: Repo, table: Table, rel: string, reason: Reason)
    requires Readable(repo, rel) && EndsWith(rel, ".py")
    ensures ReasonFor(repo, table, rel) == Some(reason) <==> reason.rel == rel && Holds(repo, table, reason)
  {
    var name := ModuleName(rel);
    assert Defines(table, rel) <==> name.Some? && name.value in table;
  }

  lemma OtherReason(repo: Repo, table: Table, rel: string, reason: Reason)
    requires Readable(repo, rel) && !EndsWith(rel, ".py")
    ensures ReasonFor(repo, table, rel) == Some(reason) <==> reason.rel == rel && Holds(repo, table, reason)
  {
  }

  /** A full-suite reason is given exactly if it holds of a changed path. */
  lemma ReasonIff(repo: Repo, table: Table, changed: seq<string>, reason: Reason)
    ensures Given(repo, table, changed, reason) <==> reason.rel in changed && Holds(repo, table, reason)
  {
    forall rel | rel in changed
      ensures ReasonFor(repo, table, rel) == Some(reason) <==> reason.rel == rel && Holds(repo, table, reason)
    {
      ReasonOf(repo, table, rel, reason);
    }
  }

  /** When a module counts as changed: a changed file defines it, or it names a
      changed document in its string data. */
  lemma TracedIff(repo: Repo, table: Table, changed: seq<string>, m: string)
    ensures Traced(repo, table, changed, m) <==> m in table && exists rel <- changed ::
              && Readable(repo, rel)
              && if EndsWith(rel, ".py") then ModuleName(rel) == Some(m)
                 else Searched(rel) && exists literal <- repo.literals(table[m]) :: Contains(literal, rel)
  {
  }

  /** No change is overlooked: each changed path gives a full-suite reason, or is
      traced through its module, or is a document; and then every module that
      names it counts as changed. */
  lemma NothingOverlooked(repo: Repo, table: Table, changed: seq<string>, rel: string)
    requires rel in changed
    ensures || (exists r :: Given(repo, table, changed, r) && r.rel == rel)
            || (ModuleName(rel).Some? && Traced(repo, table, changed, ModuleName(rel).value))
            || (Searched(rel) && forall m <- table, literal <- repo.literals(table[m]) ::
                  Contains(literal, rel) ==> Traced(repo, table, changed, m))
  {
    var reason := ReasonFor(repo, table, rel);
    if reason.Some? {
      assert Given(repo, table, changed, reason.value);
    } else {
      NoModule(rel);
      forall m | m in TracedBy(repo, table, rel) ensures Traced(repo, table, changed, m) {}
    }
  }

  // ---- the checks before a run --------------------------------------------

  /** A selection passes exactly if its status says whether there are tests, and a
      full run has a reason. */
  lemma CheckIff(s: Selection)
    ensures Check(s).Pass? <==>
              (s.status == KnownEmpty <==> s.tests == {}) && (s.status == UnresolvedFull ==> s.full != [])
    ensures Check(s).Disagrees? <==> !(s.status == KnownEmpty <==> s.tests == {})
  {
  }
}
