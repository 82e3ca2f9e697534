/** The static import graph: resolving dotted names, building edges, and the
    modules reachable from one. */
module ImportGraph {
  import opened Common

  /** Tracked modules and their paths. */
  type Table = map<string, string>

  type Graph = map<string, set<string>>

  // ---- resolving a dotted name --------------------------------------------

  /** `p` is `name` cut at a dot, or all of it. */
  ghost predicate DottedPrefix(p: string, name: string) {
    p <= name && (|p| < |name| ==> name[|p|] == '.')
  }

  /** The longest tracked dotted prefix. */
  ghost predicate Resolves(name: string, table: Table, r: Option<string>) {
    match r
    case None => forall q <- table :: !DottedPrefix(q, name)
    case Some(p) =>
      && p in table && DottedPrefix(p, name)
      && forall q <- table :: DottedPrefix(q, name) ==> |q| <= |p|
  }

  lemma ResolvesOnce(name: string, table: Table, a: Option<string>, b: Option<string>)
    requires Resolves(name, table, a) && Resolves(name, table, b)
    ensures a == b
  {
    if a.Some? && b.Some? {
      assert a.value == name[..|a.value|] && b.value == name[..|b.value|];
    }
  }

  function Cut(name: string, k: nat): string
    requires k <= |Split(name, '.')|
  {
    Join(Split(name, '.')[..k], '.')
  }

  /** Each dotted prefix is a cut of the name's parts. */
  lemma PrefixIsCut(p: string, name: string) returns (k: nat)
    requires DottedPrefix(p, name)
    ensures 0 < k <= |Split(name, '.')| && Cut(name, k) == p
  {
    var parts := Split(name, '.');
    k := |Split(p, '.')|;
    SplitJoins(p, '.');
    if |p| < |name| {
      var rest := name[|p| + 1..];
      assert name == p + ['.'] + rest;
      SplitAt(p, '.', rest);
      assert parts[..k] == Split(p, '.');
    } else {
      assert p == name && parts[..k] == parts;
    }
  }

  lemma CutIsPrefix(name: string, k: nat)
    requires 0 < k <= |Split(name, '.')|
    ensures DottedPrefix(Cut(name, k), name)
    decreases |Split(name, '.')| - k
  {
    var parts := Split(name, '.');
    if k == |parts| {
      assert parts[..k] == parts;
      SplitJoins(name, '.');
    } else {
      CutIsPrefix(name, k + 1);
      CutGrows(name, k);
    }
  }

  lemma CutGrows(name: string, k: nat)
    requires 0 < k < |Split(name, '.')|
    ensures Cut(name, k) + ['.'] <= Cut(name, k + 1)
  {
    var parts := Split(name, '.');
    assert parts[..k + 1][..k] == parts[..k];
  }

  lemma CutLonger(name: string, j: nat, k: nat)
    requires 0 < j <= k <= |Split(name, '.')|
    ensures |Cut(name, j)| <= |Cut(name, k)|
    decreases k - j
  {
    if j < k {
      CutGrows(name, j);
      CutLonger(name, j + 1, k);
    }
  }

  /** `_resolve`. */
  method Resolve(name: string, table: Table) returns (r: Option<string>)
    ensures Resolves(name, table, r)
  {
    var parts := Split(name, '.');
    ghost var all := parts;
    r := None;
    while parts != [] && r.None?
      invariant |parts| <= |all| && parts == all[..|parts|]
      invariant forall k :: |parts| < k <= |all| && r.None? ==> Cut(name, k) !in table
      invariant r.Some? ==> |parts| > 0 && r.value == Cut(name, |parts|) && r.value in table
      invariant r.Some? ==> forall k :: |parts| < k <= |all| ==> Cut(name, k) !in table
      decreases |parts|, r.None?
    {
      var candidate := Join(parts, '.');
      if candidate in table {
        r := Some(candidate);
      } else {
        parts := parts[..|parts| - 1];
      }
    }
    Resolved(name, table, |parts|, r);
  }

  lemma Resolved(name: string, table: Table, k: nat, r: Option<string>)
    requires k <= |Split(name, '.')|
    requires forall j :: k < j <= |Split(name, '.')| ==> Cut(name, j) !in table
    requires if r.Some? then k > 0 && r.value == Cut(name, k) && r.value in table else k == 0
    ensures Resolves(name, table, r)
  {
    forall q <- table | DottedPrefix(q, name) ensures r.Some? && |q| <= |r.value| {
      var j := PrefixIsCut(q, name);
      assert j <= k;
      CutLonger(name, j, k);
    }
    if r.Some? {
      CutIsPrefix(name, k);
    }
  }

  // ---- the edges ----------------------------------------------------------

  /** Module `to` is imported by `from`: what one edge stands for. */
  ghost predicate Imports(imports: string -> set<string>, table: Table, from: string, to: string) {
    from in table && from != to && exists name <- imports(table[from]) :: Resolves(name, table, Some(to))
  }

  /** The graph holds exactly the resolved imports. */
  ghost predicate Represents(g: Graph, imports: string -> set<string>, table: Table) {
    && g.Keys == table.Keys
    && forall m, to :: m in g ==> (to in g[m] <==> Imports(imports, table, m, to))
  }

  /** The inner loop of `build_graph`, for one module. */
  method Edges(names: set<string>, table: Table, module_: string) returns (edges: set<string>)
    ensures forall to :: to in edges <==> to != module_ && exists name <- names :: Resolves(name, table, Some(to))
  {
    edges := {};
    var seen: set<string> := {};
    while seen != names
      invariant seen <= names
      invariant forall to :: to in edges <==> to != module_ && exists name <- seen :: Resolves(name, table, Some(to))
      decreases names - seen
    {
      ghost var _ := Unseen(seen, names);
      var imported :| imported in names && imported !in seen;
      var resolved := Resolve(imported, table);
      AddEdge(seen, imported, table, module_, resolved, edges);
      if resolved.Some? && resolved.value != module_ {
        edges := edges + {resolved.value};
      }
      seen := seen + {imported};
    }
  }

  lemma AddEdge(seen: set<string>, imported: string, table: Table, module_: string,
                resolved: Option<string>, edges: set<string>)
    requires Resolves(imported, table, resolved)
    requires forall to :: to in edges <==> to != module_ && exists name <- seen :: Resolves(name, table, Some(to))
    ensures var more := if resolved.Some? && resolved.value != module_ then edges + {resolved.value} else edges;
            forall to :: to in more <==>
              to != module_ && exists name <- seen + {imported} :: Resolves(name, table, Some(to))
  {
    var more := if resolved.Some? && resolved.value != module_ then edges + {resolved.value} else edges;
    forall to
      ensures to in more <==> to != module_ && exists name <- seen + {imported} :: Resolves(name, table, Some(to))
    {
      if resolved == Some(to) {
        assert imported in seen + {imported};
      }
      if name :| name in seen + {imported} && Resolves(name, table, Some(to)) && name == imported {
        ResolvesOnce(imported, table, Some(to), resolved);
      }
      if name :| name in seen && Resolves(name, table, Some(to)) {
        assert name in seen + {imported};
      }
    }
  }

  /** `build_graph`. */
  method BuildGraph(imports: string -> set<string>, table: Table) returns (g: Graph)
    ensures Represents(g, imports, table)
  {
    g := map[];
    while g.Keys != table.Keys
      invariant g.Keys <= table.Keys
      invariant forall m, to :: m in g ==> (to in g[m] <==> Imports(imports, table, m, to))
      decreases table.Keys - g.Keys
    {
      ghost var _ := Unseen(g.Keys, table.Keys);
      var name :| name in table && name !in g;
      var edges := Edges(imports(table[name]), table, name);
      ghost var done := g.Keys;
      g := g[name := edges];
      assert g.Keys == done + {name};
    }
  }

  // ---- reachability -------------------------------------------------------

  function Next(g: Graph, m: string): set<string> { if m in g then g[m] else {} }

  ghost predicate Walk(g: Graph, path: seq<string>) {
    path != [] && forall i :: 0 <= i < |path| - 1 ==> path[i + 1] in Next(g, path[i])
  }

  /** Some walk leads from a to b. */
  ghost predicate Reaches(g: Graph, a: string, b: string) {
    exists path :: Walk(g, path) && path[0] == a && path[|path| - 1] == b
  }

  lemma ReachesItself(g: Graph, a: string)
    ensures Reaches(g, a, a)
  {
    assert Walk(g, [a]);
  }

  lemma ReachesNext(g: Graph, a: string, b: string, c: string)
    requires Reaches(g, a, b) && c in Next(g, b)
    ensures Reaches(g, a, c)
  {
    var path :| Walk(g, path) && path[0] == a && path[|path| - 1] == b;
    assert Walk(g, path + [c]);
  }

  /** A set closed under edges holds every walk that starts in it. */
  lemma {:induction false} WalkStaysInside(g: Graph, inside: set<string>, path: seq<string>)
    requires Walk(g, path) && path[0] in inside
    requires forall m <- inside :: Next(g, m) <= inside
    ensures path[|path| - 1] in inside
  {
    var n := |path| - 1;
    if n > 0 {
      assert Walk(g, path[..n]);
      WalkStaysInside(g, inside, path[..n]);
      assert path[n - 1 + 1] in Next(g, path[n - 1]);
    }
  }

  /** Every module some edge leads to. */
  ghost function Targets(g: Graph): set<string> {
    set m, to | m in g && to in g[m] :: to
  }

  /** The inner loop of `_closure`: push the edges not seen yet. */
  method Push(edges: set<string>, seen: set<string>, stack: seq<string>)
    returns (seen': set<string>, stack': seq<string>)
    ensures seen' == seen + edges
    ensures forall m :: m in stack' <==> m in stack || (m in edges && m !in seen)
    ensures edges <= seen ==> stack' == stack
  {
    seen', stack' := seen, stack;
    var done: set<string> := {};
    while done != edges
      invariant done <= edges && seen' == seen + done
      invariant forall m :: m in stack' <==> m in stack || (m in done && m !in seen)
      invariant edges <= seen ==> stack' == stack
      decreases edges - done
    {
      ghost var _ := Unseen(done, edges);
      var edge :| edge in edges && edge !in done;
      if edge !in seen' {
        seen' := seen' + {edge};
        stack' := stack' + [edge];
      }
      done := done + {edge};
    }
  }

  /** What `_closure` keeps: what it saw is reachable, and only modules still on
      the stack may have edges out. */
  ghost predicate Exploring(g: Graph, start: string, seen: set<string>, stack: seq<string>) {
    && start in seen && seen <= Targets(g) + {start}
    && (forall m <- stack :: m in seen)
    && (forall m <- seen :: Reaches(g, start, m))
    && (forall m <- seen :: m in stack || Next(g, m) <= seen)
  }

  lemma Explore(g: Graph, start: string, seen: set<string>, stack: seq<string>, seen': set<string>, stack': seq<string>)
    requires Exploring(g, start, seen, stack) && stack != []
    requires var top := stack[|stack| - 1];
             && seen' == seen + Next(g, top)
             && forall m :: m in stack' <==> m in stack[..|stack| - 1] || (m in Next(g, top) && m !in seen)
    ensures Exploring(g, start, seen', stack')
  {
    var n := |stack| - 1;
    var top := stack[n];
    assert top in seen;
    forall m | m in Next(g, top) ensures Reaches(g, start, m) {
      ReachesNext(g, start, top, m);
    }
    assert forall m <- stack :: m in stack[..n] || m == top;
    assert forall m <- stack[..n] :: m in stack;
  }

  /** `_closure`: on any graph it ends with exactly the reachable modules. */
  method Closure(start: string, g: Graph) returns (seen: set<string>)
    ensures forall m :: m in seen <==> Reaches(g, start, m)
  {
    seen := {start};
    var stack := [start];
    ReachesItself(g, start);
    while stack != []
      invariant Exploring(g, start, seen, stack)
      decreases Targets(g) + {start} - seen, |stack|
    {
      var top := stack[|stack| - 1];
      ghost var before, old_ := stack, seen;
      seen, stack := Push(Next(g, top), seen, stack[..|stack| - 1]);
      Explore(g, start, old_, before, seen, stack);
      Smaller(Targets(g) + {start}, old_, seen);
    }
    forall m | Reaches(g, start, m) ensures m in seen {
      var path :| Walk(g, path) && path[0] == start && path[|path| - 1] == m;
      WalkStaysInside(g, seen, path);
    }
  }

  lemma Smaller<T>(all: set<T>, seen: set<T>, seen': set<T>)
    requires seen <= seen' <= all
    ensures seen == seen' || all - seen' < all - seen
  {
    if x :| x in seen' && x !in seen {
      assert x in all - seen && x !in all - seen';
    }
  }

  ghost predicate ImportStep(imports: string -> set<string>, table: Table, from: string, to: string) {
    from in table && exists name <- imports(table[from]) :: Resolves(name, table, Some(to))
  }

  /** A chain of imports between tracked modules is a walk in the graph. */
  lemma {:induction false} ChainReaches(g: Graph, imports: string -> set<string>, table: Table, chain: seq<string>)
    requires Represents(g, imports, table) && chain != []
    requires forall i :: 0 <= i < |chain| - 1 ==> ImportStep(imports, table, chain[i], chain[i + 1])
    ensures Reaches(g, chain[0], chain[|chain| - 1])
  {
    var n := |chain| - 1;
    if n == 0 {
      ReachesItself(g, chain[0]);
    } else {
      ChainReaches(g, imports, table, chain[..n]);
      var from, to := chain[n - 1], chain[n];
      assert ImportStep(imports, table, from, chain[n - 1 + 1]);
      if from != to {
        StepIsEdge(g, imports, table, from, to);
        ReachesNext(g, chain[0], from, to);
      }
    }
  }

  lemma StepIsEdge(g: Graph, imports: string -> set<string>, table: Table, from: string, to: string)
    requires Represents(g, imports, table) && ImportStep(imports, table, from, to) && from != to
    ensures to in Next(g, from)
  {
    assert Imports(imports, table, from, to);
  }
}
