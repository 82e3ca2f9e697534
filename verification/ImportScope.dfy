/** The process-wide import scope: its tables, how they are mounted and
    restored, and what any interleaving of users keeps. */
module ImportScope {
  import opened Common

  /** The fixed-driver locations a caller asks for. */
  datatype Context = Context(roots: seq<string>, mutablePackages: seq<string>)

  datatype Finder = Declared(roots: seq<string>) | Other(id: nat)

  /** `sys.path`, `sys.meta_path` and `sys.modules`. */
  datatype Tables = Tables(path: seq<string>, finders: seq<Finder>, modules: map<string, nat>)

  /** One mounted scope with what its cleanup will put back. */
  datatype ImportState = ImportState(
    context: Context, snapshot: Option<string>, names: set<string>, saved: Tables, users: int)

  /** The import tables, every state ever created, and which one is active. */
  datatype Process = Process(tables: Tables, states: seq<ImportState>, active: Option<nat>)

  datatype Entry = Passes | Entered(state: nat) | Conflict | Refused

  const FRAMEWORK := "zicato"

  function Top(name: string): string { Split(name, '.')[0] }

  predicate Identifier(s: string) {
    && s != ""
    && !('0' <= s[0] <= '9')
    && forall c <- s :: 'a' <= c <= 'z' || 'A' <= c <= 'Z' || '0' <= c <= '9' || c == '_'
  }

  /** The names a scope manages: packages found on disk, except the framework,
      and the declared mutable packages. */
  function ManagedNames(found: set<string>, context: Context): set<string> {
    (found - {FRAMEWORK}) + set name | name in context.mutablePackages && Identifier(name)
  }

  function Roots(context: Context, snapshot: Option<string>): seq<string> {
    (if snapshot.Some? then [snapshot.value] else []) + context.roots
  }

  /** `dict.fromkeys`: first occurrences in order. */
  function FirstOccurrences(s: seq<string>): seq<string> {
    if s == [] then []
    else
      var before := FirstOccurrences(s[..|s| - 1]);
      if s[|s| - 1] in s[..|s| - 1] then before else before + [s[|s| - 1]]
  }

  function Managed(modules: map<string, nat>, names: set<string>): map<string, nat> {
    map m | m in modules && Top(m) in names :: modules[m]
  }

  function Unmanaged(modules: map<string, nat>, names: set<string>): map<string, nat> {
    map m | m in modules && Top(m) !in names :: modules[m]
  }

  function Mounted(t: Tables, roots: seq<string>, names: set<string>): Tables {
    Tables(FirstOccurrences(roots) + t.path, [Declared(roots)] + t.finders, Unmanaged(t.modules, names))
  }

  function Saved(t: Tables, names: set<string>): Tables {
    t.(modules := Managed(t.modules, names))
  }

  function Restored(t: Tables, names: set<string>, saved: Tables): Tables {
    saved.(modules := Unmanaged(t.modules, names) + saved.modules)
  }

  /** Entering the scope, atomically under the lock. `found` is what listing the
      roots gives. */
  function Enter(p: Process, context: Context, snapshot: Option<string>, found: set<string>): (Process, Entry)
    requires p.active.Some? ==> p.active.value < |p.states|
  {
    if context.roots == [] && snapshot.None? then (p, Passes)
    else if p.active.None? then
      if snapshot.Some? && FRAMEWORK in context.mutablePackages then (p, Refused)
      else
        var names := ManagedNames(found, context);
        var state := ImportState(context, snapshot, names, Saved(p.tables, names), 1);
        (Process(Mounted(p.tables, Roots(context, snapshot), names), p.states + [state], Some(|p.states|)),
         Entered(|p.states|))
    else
      var a := p.active.value;
      if Joins(p.states[a], context, snapshot) then
        (p.(states := p.states[a := p.states[a].(users := p.states[a].users + 1)]), Entered(a))
      else (p, Conflict)
  }

  predicate Joins(state: ImportState, context: Context, snapshot: Option<string>) {
    state.context == context && (snapshot.None? || state.snapshot == snapshot)
  }

  /** Leaving it, with the state that was entered. */
  function Leave(p: Process, id: nat): Process
    requires id < |p.states|
  {
    var state := p.states[id].(users := p.states[id].users - 1);
    var q := p.(states := p.states[id := state]);
    if state.users == 0 then q.(active := None, tables := Restored(p.tables, state.names, state.saved)) else q
  }

  // ---- every interleaving -------------------------------------------------

  /** A use of the scope that has not ended. */
  datatype Guest = Guest(state: nat, context: Context, snapshot: Option<string>)

  datatype World = World(process: Process, inside: map<nat, Guest>)

  /** A user enters or leaves, or running code changes the tables at will. */
  datatype Event =
    | Enters(user: nat, context: Context, snapshot: Option<string>, found: set<string>)
    | Leaves(user: nat)
    | Changes(tables: Tables)

  function Idle(t: Tables): World { World(Process(t, [], None), map[]) }

  ghost predicate Consistent(w: World) {
    var p := w.process;
    && (p.active.Some? ==> p.active.value < |p.states|)
    && (p.active.None? <==> w.inside == map[])
    && (forall u <- w.inside :: p.active == Some(w.inside[u].state))
    && (forall u <- w.inside :: Joins(p.states[w.inside[u].state], w.inside[u].context, w.inside[u].snapshot))
    && (p.active.Some? ==> p.states[p.active.value].users == |w.inside|)
    && (forall i :: 0 <= i < |p.states| && p.active != Some(i) ==> p.states[i].users == 0)
  }

  function Step(w: World, e: Event): World
    requires Consistent(w)
  {
    match e
    case Changes(tables) => w.(process := w.process.(tables := tables))
    case Enters(u, context, snapshot, found) =>
      if u in w.inside then w
      else
        var (p, entry) := Enter(w.process, context, snapshot, found);
        if entry.Entered? then World(p, w.inside[u := Guest(entry.state, context, snapshot)]) else World(p, w.inside)
    case Leaves(u) =>
      if u !in w.inside then w
      else World(Leave(w.process, w.inside[u].state), w.inside - {u})
  }

  /** The one user of a state whose counter is one. */
  lemma FirstGuest(p: Process, u: nat, guest: Guest)
    requires p.active == Some(guest.state) && guest.state < |p.states| && p.states[guest.state].users == 1
    requires Joins(p.states[guest.state], guest.context, guest.snapshot)
    requires forall i :: 0 <= i < |p.states| && i != guest.state ==> p.states[i].users == 0
    ensures Consistent(World(p, map[u := guest]))
  {
    assert map[u := guest].Keys == {u};
    assert |map[u := guest]| == 1;
  }

  lemma MountKeeps(w: World, e: Event)
    requires Consistent(w) && e.Enters? && w.process.active.None?
    ensures Consistent(Step(w, e))
  {
    var (p, entry) := Enter(w.process, e.context, e.snapshot, e.found);
    if entry.Entered? {
      var guest := Guest(entry.state, e.context, e.snapshot);
      assert p.states[..|w.process.states|] == w.process.states && p.states[entry.state].users == 1;
      FirstGuest(p, e.user, guest);
    }
  }

  lemma JoinKeeps(w: World, e: Event)
    requires Consistent(w) && e.Enters? && w.process.active.Some? && e.user !in w.inside
    ensures Consistent(Step(w, e))
  {
    var r := Step(w, e);
    if Enter(w.process, e.context, e.snapshot, e.found).1.Entered? {
      assert r.inside.Keys == w.inside.Keys + {e.user};
      assert |r.inside| == |w.inside| + 1;
    }
  }

  lemma LeaveKeeps(w: World, e: Event)
    requires Consistent(w) && e.Leaves? && e.user in w.inside
    ensures Consistent(Step(w, e))
  {
    var rest := w.inside - {e.user};
    assert rest.Keys == w.inside.Keys - {e.user};
    assert |rest| == |w.inside| - 1;
    assert rest == map[] <==> |rest| == 0;
  }

  /** Every event keeps the scope consistent: all users inside share the active
      state and its context, and its counter counts them. */
  lemma StepKeeps(w: World, e: Event)
    requires Consistent(w)
    ensures Consistent(Step(w, e))
  {
    if e.Enters? && e.user !in w.inside {
      if w.process.active.None? {
        MountKeeps(w, e);
      } else {
        JoinKeeps(w, e);
      }
    } else if e.Leaves? && e.user in w.inside {
      LeaveKeeps(w, e);
    }
  }

  function Run(w: World, es: seq<Event>): (r: World)
    requires Consistent(w)
    ensures Consistent(r)
  {
    if es == [] then w
    else
      var before := Run(w, es[..|es| - 1]);
      StepKeeps(before, es[|es| - 1]);
      Step(before, es[|es| - 1])
  }

  /** A refused or conflicting entry changes nothing; it happens exactly when the
      declared packages would replace the running framework, or the active scope
      belongs to another context or snapshot. */
  lemma FailedEntry(w: World, e: Event)
    requires Consistent(w) && e.Enters? && e.user !in w.inside
    ensures var entry := Enter(w.process, e.context, e.snapshot, e.found).1;
            && (entry.Conflict? || entry.Refused? ==> Step(w, e) == w)
            && (entry.Conflict? <==>
                  && (e.context.roots != [] || e.snapshot.Some?)
                  && w.inside != map[]
                  && exists u <- w.inside ::
                       w.inside[u].context != e.context
                       || (e.snapshot.Some? && w.process.states[w.inside[u].state].snapshot != e.snapshot))
            && (entry.Refused? <==> w.inside == map[] && e.snapshot.Some? && FRAMEWORK in e.context.mutablePackages)
  {
    if w.inside != map[] {
      var u :| u in w.inside;
    }
  }

  // ---- one visit, from the first entry to the last leave ------------------

  /** While anyone is inside, the state of the first entry stays active and only
      its counter moves. */
  ghost predicate Visiting(w0: World, e0: Event, w: World) {
    && e0.Enters?
    && w.process.active == Some(|w0.process.states|)
    && |w.process.states| == |w0.process.states| + 1
    && var s := w.process.states[|w0.process.states|];
       var names := ManagedNames(e0.found, e0.context);
       s == ImportState(e0.context, e0.snapshot, names, Saved(w0.process.tables, names), s.users)
  }

  lemma FirstEntry(w0: World, e0: Event)
    requires Consistent(w0) && w0.inside == map[] && Step(w0, e0).inside != map[]
    ensures Visiting(w0, e0, Step(w0, e0))
    ensures Step(w0, e0).process.tables ==
              Mounted(w0.process.tables, Roots(e0.context, e0.snapshot), ManagedNames(e0.found, e0.context))
  {
  }

  lemma VisitContinues(w0: World, e0: Event, w: World, e: Event)
    requires Consistent(w) && Visiting(w0, e0, w) && Step(w, e).inside != map[]
    ensures Visiting(w0, e0, Step(w, e))
  {
    StepKeeps(w, e);
  }

  ghost predicate Occupied(w0: World, es: seq<Event>, k: nat)
    requires Consistent(w0) && k <= |es|
  {
    Run(w0, es[..k]).inside != map[]
  }

  lemma OccupiedPrefix(w0: World, es: seq<Event>, n: nat)
    requires Consistent(w0) && n <= |es|
    requires forall k :: 0 < k <= n ==> Occupied(w0, es, k)
    ensures forall k :: 0 < k <= n ==> Occupied(w0, es[..n], k)
  {
    forall k | 0 < k <= n ensures Occupied(w0, es[..n], k) {
      assert Occupied(w0, es, k);
      assert es[..n][..k] == es[..k];
    }
  }

  lemma {:induction false} VisitLasts(w0: World, es: seq<Event>)
    requires Consistent(w0) && w0.inside == map[] && es != []
    requires forall k :: 0 < k <= |es| ==> Occupied(w0, es, k)
    ensures Visiting(w0, es[0], Run(w0, es))
  {
    var n := |es| - 1;
    assert es[..|es|] == es && Occupied(w0, es, |es|);
    if n == 0 {
      assert Run(w0, es[..n]) == w0;
      FirstEntry(w0, es[0]);
    } else {
      OccupiedPrefix(w0, es, n);
      VisitLasts(w0, es[..n]);
      VisitContinues(w0, es[0], Run(w0, es[..n]), es[n]);
    }
  }

  /** The last leave of a visit puts the tables back as the first entry found
      them. Modules outside the managed names stay as they are. The tables were
      mounted once. */
  lemma VisitRestores(w0: World, es: seq<Event>)
    requires Consistent(w0) && w0.inside == map[] && |es| > 1
    requires forall k :: 0 < k < |es| ==> Occupied(w0, es, k)
    requires Run(w0, es).inside == map[]
    ensures es[0].Enters?
    ensures PutBack(w0.process, es[0], Run(w0, es[..|es| - 1]).process, Run(w0, es).process)
  {
    var n := |es| - 1;
    OccupiedPrefix(w0, es, n);
    VisitLasts(w0, es[..n]);
    assert es[..n][0] == es[0];
    LastLeave(w0, es[0], Run(w0, es[..n]), es[n]);
  }

  /** From `origin`, entered by e0, to `after`, left from `before`. */
  ghost predicate PutBack(origin: Process, e0: Event, before: Process, after: Process)
    requires e0.Enters?
  {
    var names := ManagedNames(e0.found, e0.context);
    && after.tables.path == origin.tables.path
    && after.tables.finders == origin.tables.finders
    && Managed(after.tables.modules, names) == Managed(origin.tables.modules, names)
    && Unmanaged(after.tables.modules, names) == Unmanaged(before.tables.modules, names)
    && |after.states| == |origin.states| + 1
  }

  lemma LastLeave(w0: World, e0: Event, w: World, e: Event)
    requires Consistent(w) && Visiting(w0, e0, w) && Step(w, e).inside == map[]
    ensures PutBack(w0.process, e0, w.process, Step(w, e).process)
  {
    assert e.Leaves? && e.user in w.inside;
    StepKeeps(w, e);
    assert Step(w, e).process.active.None?;
    var names := ManagedNames(e0.found, e0.context);
    RestoredModules(w.process.tables, names, w0.process.tables);
  }

  lemma RestoredModules(t: Tables, names: set<string>, origin: Tables)
    ensures var r := Restored(t, names, Saved(origin, names));
            && Managed(r.modules, names) == Managed(origin.modules, names)
            && Unmanaged(r.modules, names) == Unmanaged(t.modules, names)
  {
  }

  // ---- what mounting means ------------------------------------------------

  lemma {:induction false} FirstOccurrencesKeep(s: seq<string>)
    ensures Distinct(FirstOccurrences(s))
    ensures forall x :: x in FirstOccurrences(s) <==> x in s
    ensures s != [] ==> FirstOccurrences(s) != [] && FirstOccurrences(s)[0] == s[0]
  {
    if s != [] {
      var n := |s| - 1;
      FirstOccurrencesKeep(s[..n]);
      assert s == s[..n] + [s[n]];
      assert n > 0 ==> s[..n][0] == s[0];
    }
  }

  /** A mounted snapshot is searched before everything else, through the finder
      that reads declared sources. */
  lemma SnapshotFirst(t: Tables, context: Context, snapshot: string, names: set<string>)
    ensures var m := Mounted(t, Roots(context, Some(snapshot)), names);
            m.path != [] && m.path[0] == snapshot && m.finders[0] == Declared([snapshot] + context.roots)
  {
    FirstOccurrencesKeep(Roots(context, Some(snapshot)));
  }

  /** Mounting leaves the running framework's own modules loaded exactly when the
      context does not declare the framework mutable. Only an entry with a
      snapshot is refused for it. */
  lemma FrameworkStaysLoadedIff(t: Tables, context: Context, snapshot: Option<string>, found: set<string>)
    ensures FRAMEWORK !in context.mutablePackages <==>
              forall modules: map<string, nat>, m <- modules :: Top(m) == FRAMEWORK ==>
                m in Mounted(t.(modules := modules), Roots(context, snapshot), ManagedNames(found, context)).modules
  {
    var names := ManagedNames(found, context);
    assert FRAMEWORK in names <==> FRAMEWORK in context.mutablePackages;
    assert Split("zicato", '.')[0] == "zicato" by {
      SinglePiece("zicato", '.');
    }
    if FRAMEWORK in names {
      var modules: map<string, nat> := map["zicato" := 0];
      assert "zicato" in modules && Top("zicato") == FRAMEWORK;
      assert "zicato" !in Mounted(t.(modules := modules), Roots(context, snapshot), names).modules;
    }
  }

  const LOWER: set<char> := {
    'a', 'b', 'c', 'd', 'e', 'f', 'g', 'h', 'i', 'j', 'k', 'l', 'm',
    'n', 'o', 'p', 'q', 'r', 's', 't', 'u', 'v', 'w', 'x', 'y', 'z'}

  const UPPER: set<char> := {
    'A', 'B', 'C', 'D', 'E', 'F', 'G', 'H', 'I', 'J', 'K', 'L', 'M',
    'N', 'O', 'P', 'Q', 'R', 'S', 'T', 'U', 'V', 'W', 'X', 'Y', 'Z'}

  const DIGITS: set<char> := {'0', '1', '2', '3', '4', '5', '6', '7', '8', '9'}

  predicate Letter(c: char) { c in LOWER || c in UPPER || c == '_' }

  lemma Letters(c: char)
    ensures Letter(c) <==> 'a' <= c <= 'z' || 'A' <= c <= 'Z' || c == '_'
    ensures c in DIGITS <==> '0' <= c <= '9'
  {
  }

  /** An ASCII identifier is a letter and then letters and digits. */
  lemma IdentifierIff(s: string)
    ensures Identifier(s) <==> s != "" && Letter(s[0]) && forall c <- s :: Letter(c) || c in DIGITS
  {
    forall c: char
      ensures Letter(c) <==> 'a' <= c <= 'z' || 'A' <= c <= 'Z' || c == '_'
      ensures c in DIGITS <==> '0' <= c <= '9'
    {
      Letters(c);
    }
    assert s != "" ==> s[0] in s;
  }

  /** Mounting unloads a module if and only if its package is found under the roots
      and is not the framework, or is declared mutable under a proper name. */
  lemma MountUnloadsIff(t: Tables, context: Context, snapshot: Option<string>, found: set<string>, m: string)
    requires m in t.modules
    ensures var mounted := Mounted(t, Roots(context, snapshot), ManagedNames(found, context)).modules;
            && (m !in mounted <==>
                  || (Top(m) in found && Top(m) != "zicato")
                  || (Top(m) in context.mutablePackages && Identifier(Top(m))))
            && (m in mounted ==> mounted[m] == t.modules[m])
  {
  }

  lemma {:induction false} FirstOccurrencesOrder(s: seq<string>, i: nat, j: nat)
    requires i < j < |FirstOccurrences(s)|
    ensures exists k :: 0 <= k <= |s| && FirstOccurrences(s)[i] in s[..k] && FirstOccurrences(s)[j] !in s[..k]
  {
    var n := |s| - 1;
    var before := FirstOccurrences(s[..n]);
    FirstOccurrencesKeep(s[..n]);
    if j < |before| {
      FirstOccurrencesOrder(s[..n], i, j);
      var k :| 0 <= k <= n && before[i] in s[..n][..k] && before[j] !in s[..n][..k];
      assert s[..n][..k] == s[..k];
    } else {
      assert before[i] in before;
      assert before[i] in s[..n];
    }
  }

  /** The mounted path is the roots, each once in the order of their first mention,
      and then what was there. */
  lemma PathMounted(t: Tables, context: Context, snapshot: Option<string>, names: set<string>)
    ensures var m := Mounted(t, Roots(context, snapshot), names);
            var k := |m.path| - |t.path|;
            && k >= 0 && m.path[k..] == t.path && Distinct(m.path[..k])
            && (forall x :: x in m.path[..k] <==> x in context.roots || snapshot == Some(x))
            && m.finders[1..] == t.finders
  {
    var roots := Roots(context, snapshot);
    FirstOccurrencesKeep(roots);
    var m := Mounted(t, roots, names);
    assert m.path[..|FirstOccurrences(roots)|] == FirstOccurrences(roots);
  }

  /** How an entry is answered, in terms of who is inside. */
  lemma EntryAnswers(w: World, e: Event)
    requires Consistent(w) && e.Enters? && e.user !in w.inside
    ensures var entry := Enter(w.process, e.context, e.snapshot, e.found).1;
            && (entry.Passes? <==> e.context.roots == [] && e.snapshot.None?)
            && (entry.Entered? <==>
                  && (e.context.roots != [] || e.snapshot.Some?)
                  && if w.inside == map[] then e.snapshot.None? || "zicato" !in e.context.mutablePackages
                     else forall u <- w.inside ::
                            && w.inside[u].context == e.context
                            && (e.snapshot.None? || w.process.states[w.inside[u].state].snapshot == e.snapshot))
            && (e.user in Step(w, e).inside <==> entry.Entered?)
            && (entry.Passes? ==> Step(w, e) == w)
  {
    if w.inside != map[] {
      var u :| u in w.inside;
    }
  }

  // ---- the implementation -------------------------------------------------

  class DriverImports {
    var path: seq<string>
    var finders: seq<Finder>
    var modules: map<string, nat>
    var states: seq<ImportState>
    var active: Option<nat>

    ghost function View(): Process
      reads this
    {
      Process(Tables(path, finders, modules), states, active)
    }

    constructor (path: seq<string>, finders: seq<Finder>, modules: map<string, nat>)
      ensures View() == Idle(Tables(path, finders, modules)).process
    {
      this.path, this.finders, this.modules := path, finders, modules;
      states, active := [], None;
    }

    /** The deletion loops: drop the loaded modules under the managed names. */
    method Forget(names: set<string>)
      modifies this`modules
      ensures modules == Unmanaged(old(modules), names)
    {
      var seen: set<string> := {};
      ghost var was := modules;
      while seen != modules.Keys
        invariant seen <= modules.Keys
        invariant modules.Keys <= was.Keys && forall m <- modules :: modules[m] == was[m]
        invariant forall m <- was :: m in modules || Top(m) in names
        invariant forall m <- seen :: Top(m) !in names
        decreases modules.Keys - seen
      {
        ghost var _ := Unseen(seen, modules.Keys);
        var name :| name in modules && name !in seen;
        if Top(name) in names {
          modules := modules - {name};
        } else {
          seen := seen + {name};
        }
      }
    }

    /** `driver_import_scope` up to its yield. */
    method EnterScope(context: Context, snapshot: Option<string>, found: set<string>) returns (entry: Entry)
      requires active.Some? ==> active.value < |states|
      modifies this
      ensures (View(), entry) == Enter(old(View()), context, snapshot, found)
    {
      if context.roots == [] && snapshot.None? {
        entry := Passes;
      } else if active.Some? {
        var state := states[active.value];
        if state.context != context || (snapshot.Some? && state.snapshot != snapshot) {
          entry := Conflict;
        } else {
          states := states[active.value := state.(users := state.users + 1)];
          entry := Entered(active.value);
        }
      } else if snapshot.Some? && FRAMEWORK in context.mutablePackages {
        entry := Refused;
      } else {
        var names := ManagedNames(found, context);
        var roots := Roots(context, snapshot);
        var saved := Tables(path, finders, Managed(modules, names));
        Forget(names);
        path := FirstOccurrences(roots) + path;
        finders := [Declared(roots)] + finders;
        entry := Entered(|states|);
        active := Some(|states|);
        states := states + [ImportState(context, snapshot, names, saved, 1)];
      }
    }

    /** Its `finally` clause. */
    method LeaveScope(id: nat)
      requires id < |states|
      modifies this
      ensures View() == Leave(old(View()), id)
    {
      var state := states[id].(users := states[id].users - 1);
      states := states[id := state];
      if state.users == 0 {
        active := None;
        Forget(state.names);
        modules := modules + state.saved.modules;
        path := state.saved.path;
        finders := state.saved.finders;
      }
    }
  }
}
