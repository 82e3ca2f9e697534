/** Choosing the tests a change can reach, and the checks made before running
    them. */
module AffectedTests {
  import opened Common
  import opened ImportGraph

  /** What reading the working tree gives, by path: whether it is there, the
      names it imports, whether it imports something the parser cannot evaluate,
      its string literals and its text. */
  datatype Repo = Repo(
    present: string -> bool,
    imports: string -> set<string>,
    unresolved: string -> bool,
    literals: string -> set<string>,
    text: string -> string)

  /** Why the whole suite is needed. */
  datatype Reason =
    | Deleted(rel: string) | EveryTest(rel: string) | NotPython(rel: string)
    | NotModule(rel: string) | Dynamic(rel: string) | Untracked(rel: string)

  /** Why one test is picked. */
  datatype Why = ItselfChanged | ImportsModule(name: string) | NamesModule(name: string)

  datatype Status = Selected | KnownEmpty | UnresolvedFull

  datatype Selection = Selection(status: Status, tests: set<string>, reasons: map<string, set<Why>>, full: seq<Reason>)

  // ---- paths --------------------------------------------------------------

  predicate EndsWith(s: string, end: string) {
    |end| <= |s| && s[|s| - |end|..] == end
  }

  predicate Contains(s: string, part: string) {
    part <= s || (s != [] && Contains(s[1..], part))
  }

  function FileName(rel: string): string {
    var parts := Split(rel, '/');
    parts[|parts| - 1]
  }

  /** The file name from its last dot on, unless the dot is first or last. */
  function Suffix(rel: string): string {
    var name := FileName(rel);
    var parts := Split(name, '.');
    var last := parts[|parts| - 1];
    if |last| > 0 && |name| > |last| + 1 then "." + last else ""
  }

  function Lower(s: string): string {
    seq(|s|, i requires 0 <= i < |s| => if 'A' <= s[i] <= 'Z' then 'a' + (s[i] - 'A') else s[i])
  }

  const PACKAGE_ROOTS: seq<(string, string)> := [
    ("zicato", "src/zicato"), ("zicato_examples", "examples/zicato_examples"), ("tests", "tests"), ("tools", "tools")]

  /** The dotted module a path defines. */
  function ModuleName(rel: string): Option<string> {
    ModuleUnder(rel, PACKAGE_ROOTS)
  }

  function ModuleUnder(rel: string, roots: seq<(string, string)>): Option<string> {
    if roots == [] then None
    else
      var (package, root) := roots[0];
      if !(root + "/" <= rel) then ModuleUnder(rel, roots[1..])
      else
        var tail := rel[|root| + 1..];
        if !EndsWith(tail, ".py") then None
        else
          var parts := Split(tail[..|tail| - 3], '/');
          var kept := if parts[|parts| - 1] == "__init__" then parts[..|parts| - 1] else parts;
          Some(Join([package] + kept, '.'))
  }

  const ALWAYS_FULL_SUITE: seq<string> := ["tests/conftest.py", "pyproject.toml", "uv.lock", "tools/parity/"]

  const PROSE_TREES: seq<string> := ["docs/", "skills/", "README.md", "CHANGELOG.md"]

  const TRACED_DATA_FILES: seq<string> := [".line-budget.json"]

  predicate IsProse(rel: string) {
    && Lower(Suffix(rel)) in {".md", ".rst", ".txt"}
    && exists tree <- PROSE_TREES :: rel == tree || (EndsWith(tree, "/") && tree <= rel)
  }

  predicate SharedByAll(rel: string) {
    FileName(rel) == "conftest.py" || exists entry <- ALWAYS_FULL_SUITE :: entry <= rel
  }

  predicate IsTestFile(name: string, rel: string) {
    ("tests." <= name || "tools." <= name) && "test_" <= FileName(rel) && !("tools/parity/" <= rel)
  }

  function TestFiles(table: Table): set<string> {
    set name | name in table && IsTestFile(name, table[name]) :: table[name]
  }

  /** Modules that name a path in executable string data. */
  function ModulesNaming(repo: Repo, table: Table, rel: string): set<string> {
    set m | m in table && exists literal <- repo.literals(table[m]) :: Contains(literal, rel)
  }

  // ---- triage -------------------------------------------------------------

  /** The full-suite reason one changed path gives, if any. */
  function ReasonFor(repo: Repo, table: Table, rel: string): Option<Reason> {
    if !repo.present(rel) then Some(Deleted(rel))
    else if SharedByAll(rel) then Some(EveryTest(rel))
    else if !EndsWith(rel, ".py") then
      if IsProse(rel) || rel in TRACED_DATA_FILES then None else Some(NotPython(rel))
    else
      var name := ModuleName(rel);
      if name.None? || name.value !in table then Some(NotModule(rel))
      else if repo.unresolved(rel) then Some(Dynamic(rel)) else None
  }

  /** The modules one changed path is traced through. */
  function TracedBy(repo: Repo, table: Table, rel: string): set<string> {
    if !repo.present(rel) || SharedByAll(rel) then {}
    else if !EndsWith(rel, ".py") then
      if IsProse(rel) || rel in TRACED_DATA_FILES then ModulesNaming(repo, table, rel) else {}
    else
      var name := ModuleName(rel);
      if name.Some? && name.value in table then {name.value} else {}
  }

  /** The changed modules: all that some changed path is traced through. */
  ghost predicate Traced(repo: Repo, table: Table, changed: seq<string>, m: string) {
    exists rel <- changed :: m in TracedBy(repo, table, rel)
  }

  ghost predicate Given(repo: Repo, table: Table, changed: seq<string>, reason: Reason) {
    exists rel <- changed :: ReasonFor(repo, table, rel) == Some(reason)
  }

  /** `_triage`. */
  method Triage(repo: Repo, changed: seq<string>, table: Table) returns (reasons: seq<Reason>, modules: set<string>)
    ensures forall r :: r in reasons <==> Given(repo, table, changed, r)
    ensures forall m :: m in modules <==> Traced(repo, table, changed, m)
  {
    reasons, modules := [], {};
    for i := 0 to |changed|
      invariant forall r :: r in reasons <==> Given(repo, table, changed[..i], r)
      invariant forall m :: m in modules <==> Traced(repo, table, changed[..i], m)
    {
      var rel := changed[i];
      var reason, traced := TriageOne(repo, rel, table);
      TriageStep(repo, table, changed[..i], rel);
      assert changed[..i + 1] == changed[..i] + [rel];
      if reason.Some? {
        reasons := reasons + [reason.value];
      }
      modules := modules + traced;
    }
    assert changed[..|changed|] == changed;
  }

  /** One pass of the loop. */
  method TriageOne(repo: Repo, rel: string, table: Table) returns (reason: Option<Reason>, traced: set<string>)
    ensures reason == ReasonFor(repo, table, rel) && traced == TracedBy(repo, table, rel)
  {
    reason, traced := None, {};
    if !repo.present(rel) {
      reason := Some(Deleted(rel));
    } else if SharedByAll(rel) {
      reason := Some(EveryTest(rel));
    } else if !EndsWith(rel, ".py") {
      if IsProse(rel) || rel in TRACED_DATA_FILES {
        traced := ModulesNaming(repo, table, rel);
      } else {
        reason := Some(NotPython(rel));
      }
    } else {
      var name := ModuleName(rel);
      if name.None? || name.value !in table {
        reason := Some(NotModule(rel));
      } else {
        traced := {name.value};
        if repo.unresolved(rel) {
          reason := Some(Dynamic(rel));
        }
      }
    }
  }

  lemma TriageStep(repo: Repo, table: Table, before: seq<string>, rel: string)
    ensures forall r :: Given(repo, table, before + [rel], r) <==>
              Given(repo, table, before, r) || ReasonFor(repo, table, rel) == Some(r)
    ensures forall m :: Traced(repo, table, before + [rel], m) <==>
              Traced(repo, table, before, m) || m in TracedBy(repo, table, rel)
  {
    assert forall x :: x in before + [rel] <==> x in before || x == rel;
  }

  // ---- selection ----------------------------------------------------------

  /** One true reason to run a test file that defines module `name`. */
  ghost predicate Justifies(why: Why, repo: Repo, table: Table, g: Graph, changed: seq<string>,
                            rel: string, name: string)
  {
    match why
    case ItselfChanged => rel in changed
    case ImportsModule(m) => Traced(repo, table, changed, m) && m != name && Reaches(g, name, m)
    case NamesModule(m) => Traced(repo, table, changed, m) && !("tests." <= m) && Contains(repo.text(rel), m)
  }

  /** A test file that the change can reach. */
  ghost predicate Affected(repo: Repo, table: Table, g: Graph, changed: seq<string>, rel: string) {
    && rel in TestFiles(table)
    && ModuleName(rel).Some?
    && exists why :: Justifies(why, repo, table, g, changed, rel, ModuleName(rel).value)
  }

  /** The reasons collected for one test file. */
  method Reasons(repo: Repo, table: Table, g: Graph, changed: seq<string>, modules: set<string>,
                 rel: string, name: string)
    returns (why: set<Why>)
    requires forall m :: m in modules <==> Traced(repo, table, changed, m)
    ensures forall w <- why :: Justifies(w, repo, table, g, changed, rel, name)
    ensures why == {} ==> forall w :: !Justifies(w, repo, table, g, changed, rel, name)
    ensures ItselfChanged in why <==> rel in changed
    ensures forall m :: ImportsModule(m) in why <==> m in modules && m != name && Reaches(g, name, m)
  {
    var reached := Closure(name, g);
    var hits := reached * modules - {name};
    why := Direct(rel in changed, hits);
    if why == {} {
      NoneDirect(rel in changed, hits);
      why := ByText(repo.text(rel), modules);
    }
  }

  /** The last kind, looked for only when there is no other. */
  method ByText(text: string, modules: set<string>) returns (why: set<Why>)
    ensures forall w <- why :: w.NamesModule? && w.name in modules && !("tests." <= w.name) && Contains(text, w.name)
    ensures why == {} ==> forall m <- modules :: "tests." <= m || !Contains(text, m)
  {
    var named := set m | m in modules && !("tests." <= m) && Contains(text, m);
    if m :| m in named {
      why := {NamesModule(m)};
    } else {
      why := {};
      forall m <- modules ensures "tests." <= m || !Contains(text, m) {
        assert m !in named;
      }
    }
  }

  /** The first two kinds of reason. */
  function Direct(itself: bool, hits: set<string>): (why: set<Why>)
    ensures ItselfChanged in why <==> itself
    ensures forall m :: ImportsModule(m) in why <==> m in hits
    ensures forall m :: NamesModule(m) !in why
  {
    (if itself then {ItselfChanged} else {}) + set m | m in hits :: ImportsModule(m)
  }

  lemma NoneDirect(itself: bool, hits: set<string>)
    requires Direct(itself, hits) == {}
    ensures !itself && hits == {}
  {
    forall m ensures m !in hits {
      assert ImportsModule(m) !in Direct(itself, hits);
    }
  }

  /** `select`: a test file is picked exactly when the change can reach it, and
      every reason given is true. */
  method Select(repo: Repo, changed: seq<string>, table: Table, g: Graph)
    returns (reasons: map<string, set<Why>>, full: seq<Reason>)
    ensures forall rel :: rel in reasons <==> Affected(repo, table, g, changed, rel)
    ensures forall rel <- reasons, w <- reasons[rel] ::
              ModuleName(rel).Some? && Justifies(w, repo, table, g, changed, rel, ModuleName(rel).value)
    ensures forall r :: r in full <==> Given(repo, table, changed, r)
  {
    var modules;
    full, modules := Triage(repo, changed, table);
    reasons := map[];
    var all := TestFiles(table);
    var seen: set<string> := {};
    while seen != all
      invariant seen <= all
      invariant forall rel :: rel in reasons <==> rel in seen && Affected(repo, table, g, changed, rel)
      invariant forall rel <- reasons, w <- reasons[rel] ::
                  ModuleName(rel).Some? && Justifies(w, repo, table, g, changed, rel, ModuleName(rel).value)
      decreases all - seen
    {
      ghost var _ := Unseen(seen, all);
      var rel :| rel in all && rel !in seen;
      var name := ModuleName(rel);
      if name.Some? {
        var why := Reasons(repo, table, g, changed, modules, rel, name.value);
        if why != {} {
          ghost var w :| w in why;
          reasons := reasons[rel := why];
        }
      }
      seen := seen + {rel};
    }
  }

  /** Enlarging a change never drops a test or a full-suite reason. */
  lemma LargerChangeSelectsMore(repo: Repo, table: Table, g: Graph, changed: seq<string>, more: seq<string>)
    requires forall rel <- changed :: rel in more
    ensures forall rel :: Affected(repo, table, g, changed, rel) ==> Affected(repo, table, g, more, rel)
    ensures forall r :: Given(repo, table, changed, r) ==> Given(repo, table, more, r)
  {
    forall rel | Affected(repo, table, g, changed, rel) ensures Affected(repo, table, g, more, rel) {
      var name := ModuleName(rel).value;
      var why :| Justifies(why, repo, table, g, changed, rel, name);
      assert Justifies(why, repo, table, g, more, rel, name);
    }
  }

  /** A test whose chain of imports ends in a changed module is picked, unless
      the change needs the whole suite. */
  lemma ImportChainSelected(repo: Repo, table: Table, g: Graph, changed: seq<string>, rel: string, chain: seq<string>)
    requires Indexed(table) && Represents(g, repo.imports, table)
    requires rel in TestFiles(table) && chain != [] && ModuleName(rel) == Some(chain[0])
    requires forall i :: 0 <= i < |chain| - 1 ==> ImportStep(repo.imports, table, chain[i], chain[i + 1])
    requires chain[|chain| - 1] in table && table[chain[|chain| - 1]] in changed
    ensures Affected(repo, table, g, changed, rel) || exists r :: Given(repo, table, changed, r)
  {
    var last := chain[|chain| - 1];
    var path := table[last];
    if last == chain[0] {
      assert Justifies(ItselfChanged, repo, table, g, changed, rel, chain[0]);
    } else if ReasonFor(repo, table, path).Some? {
      assert Given(repo, table, changed, ReasonFor(repo, table, path).value);
    } else {
      ChainReaches(g, repo.imports, table, chain);
      ModulesArePython(path, PACKAGE_ROOTS);
      assert last in TracedBy(repo, table, path);
      assert Justifies(ImportsModule(last), repo, table, g, changed, rel, chain[0]);
    }
  }

  /** The table `_module_paths` builds: each path under the module it defines. */
  ghost predicate Indexed(table: Table) {
    forall m <- table :: ModuleName(table[m]) == Some(m)
  }

  lemma {:induction false} ModulesArePython(rel: string, roots: seq<(string, string)>)
    requires ModuleUnder(rel, roots).Some?
    ensures EndsWith(rel, ".py")
  {
    var root := roots[0].1;
    if root + "/" <= rel {
      var tail := rel[|root| + 1..];
      assert rel[|rel| - 3..] == tail[|tail| - 3..];
    } else {
      ModulesArePython(rel, roots[1..]);
    }
  }

  // ---- build_selection and run_selection ----------------------------------

  /** The paths a comparison examined. */
  datatype Comparison = Comparison(
    branch: seq<string>, staged: seq<string>, unstaged: seq<string>, untracked: seq<string>, includeWorktree: bool)
  {
    function Changed(): seq<string> {
      branch + if includeWorktree then staged + unstaged + untracked else []
    }
  }

  /** Untracked files whose dependencies are not established. */
  ghost predicate Loose(c: Comparison, r: Reason) {
    c.includeWorktree && r.Untracked? && r.rel in c.untracked && !IsProse(r.rel)
  }

  /** `build_selection`; `suite` are the tool tests that run beside "tests/". */
  method BuildSelection(repo: Repo, c: Comparison, table: Table, suite: set<string>)
    returns (s: Selection, ghost g: Graph)
    ensures Represents(g, repo.imports, table)
    ensures forall r :: r in s.full <==> c.Changed() != [] && (Given(repo, table, c.Changed(), r) || Loose(c, r))
    ensures s.status == UnresolvedFull <==> s.full != []
    ensures s.status == UnresolvedFull ==> s.tests == {"tests/"} + suite
    ensures s.status != UnresolvedFull ==>
              forall rel :: rel in s.tests <==> Affected(repo, table, g, c.Changed(), rel)
    ensures Check(s).Pass?
  {
    var graph := BuildGraph(repo.imports, table);
    g := graph;
    if c.Changed() == [] {
      NothingAffected(repo, table, g);
      s := Selection(KnownEmpty, {}, map[], []);
    } else {
      var reasons, full := Select(repo, c.Changed(), table, graph);
      var loose := LooseReasons(c);
      var all := full + loose;
      assert forall r :: r in all <==> r in full || r in loose;
      if all != [] {
        assert "tests/" in {"tests/"} + suite;
        s := Selection(UnresolvedFull, {"tests/"} + suite, reasons, all);
      } else {
        s := Selection(if reasons.Keys == {} then KnownEmpty else Selected, reasons.Keys, reasons, []);
      }
      assert s.full == all;
    }
  }

  lemma NothingAffected(repo: Repo, table: Table, g: Graph)
    ensures forall rel :: !Affected(repo, table, g, [], rel)
  {
  }

  method LooseReasons(c: Comparison) returns (loose: seq<Reason>)
    ensures forall r :: r in loose <==> Loose(c, r)
  {
    loose := [];
    var files := if c.includeWorktree then c.untracked else [];
    for i := 0 to |files|
      invariant forall r :: r in loose <==> Loose(c.(untracked := files[..i]), r)
    {
      assert files[..i + 1] == files[..i] + [files[i]];
      if !IsProse(files[i]) {
        loose := loose + [Untracked(files[i])];
      }
    }
    assert files[..|files|] == files;
  }

  datatype Verdict = Pass | Disagrees | NoReason

  /** The status checks of `run_selection`. */
  function Check(s: Selection): Verdict {
    if (s.tests != {}) != (s.status != KnownEmpty) then Disagrees
    else if s.status == UnresolvedFull && s.full == [] then NoReason
    else Pass
  }
}
