/** Processes and process groups as the kernel keeps them: who can hold a pid or
    a group id, and when a group id can come to mean another group. */
module ProcessTable {
  /** `id` tells apart processes that hold one pid at different times, and `clan`
      groups that hold one group id at different times. */
  datatype Proc = Proc(start: nat, group: int, zombie: bool, id: nat, clan: nat)

  /** A pid and the start time it was issued with. */
  datatype Birth = Birth(pid: int, start: nat)

  datatype Kernel = Kernel(table: map<int, Proc>, born: set<Birth>, nextId: nat, nextClan: nat)

  datatype Action =
    | Fork(parent: int, pid: int, start: nat)
    | NewGroup(pid: int)
    | Join(pid: int, other: int)
    | Exit(pid: int)
    | Reap(pid: int)
    | Idle

  predicate HasGroup(k: Kernel, g: int) {
    exists p <- k.table :: k.table[p].group == g
  }

  predicate Enabled(k: Kernel, a: Action) {
    match a
    // A new pid is neither in use nor the id of a group that still has members,
    // and the clock has moved on since the pid was last issued.
    case Fork(parent, pid, start) =>
      && parent in k.table && !k.table[parent].zombie
      && pid > 1 && pid !in k.table && !HasGroup(k, pid)
      && Birth(pid, start) !in k.born
    case NewGroup(pid) => pid in k.table && !k.table[pid].zombie && !HasGroup(k, pid)
    case Join(pid, other) => pid in k.table && !k.table[pid].zombie && other in k.table
    case Exit(pid) => pid in k.table
    case Reap(pid) => pid in k.table && k.table[pid].zombie
    case Idle => true
  }

  function Do(k: Kernel, a: Action): Kernel
    requires Enabled(k, a)
  {
    match a
    case Fork(parent, pid, start) =>
      Kernel(k.table[pid := Proc(start, k.table[parent].group, false, k.nextId, k.table[parent].clan)],
             k.born + {Birth(pid, start)}, k.nextId + 1, k.nextClan)
    case NewGroup(pid) =>
      Kernel(k.table[pid := k.table[pid].(group := pid, clan := k.nextClan)], k.born, k.nextId, k.nextClan + 1)
    case Join(pid, other) =>
      k.(table := k.table[pid := k.table[pid].(group := k.table[other].group, clan := k.table[other].clan)])
    case Exit(pid) => k.(table := k.table[pid := k.table[pid].(zombie := true)])
    case Reap(pid) => k.(table := k.table - {pid})
    case Idle => k
  }

  /** A behaviour: the kernel's state at every instant, and what happens between. */
  datatype Behaviour = Behaviour(at: nat -> Kernel, act: nat -> Action)
  {
    ghost predicate Runs() {
      Tidy(at(0)) && forall i: nat :: Enabled(at(i), act(i)) && at(i + 1) == Do(at(i), act(i))
    }
  }

  /** The behaviour that goes through the given states and then rests. */
  function Played(states: seq<Kernel>, acts: seq<Action>): Behaviour
    requires |states| == |acts| + 1
  {
    Behaviour((i: nat) => if i < |acts| then states[i] else states[|acts|],
              (i: nat) => if i < |acts| then acts[i] else Idle)
  }

  lemma PlayedRuns(states: seq<Kernel>, acts: seq<Action>)
    requires |states| == |acts| + 1 && Tidy(states[0])
    requires forall i :: 0 <= i < |acts| ==> Enabled(states[i], acts[i]) && states[i + 1] == Do(states[i], acts[i])
    ensures Played(states, acts).Runs()
  {
  }

  /** One group id names one group at a time, and clans are fresh. */
  ghost predicate Tidy(k: Kernel) {
    && (forall p <- k.table :: k.table[p].clan < k.nextClan && Birth(p, k.table[p].start) in k.born)
    && (forall p, q :: p in k.table && q in k.table ==>
          (k.table[p].group == k.table[q].group <==> k.table[p].clan == k.table[q].clan))
  }

  lemma DoTidy(k: Kernel, a: Action)
    requires Tidy(k) && Enabled(k, a)
    ensures Tidy(Do(k, a))
  {
    var k' := Do(k, a);
    forall p, q | p in k'.table && q in k'.table
      ensures k'.table[p].group == k'.table[q].group <==> k'.table[p].clan == k'.table[q].clan
    {
      if a.NewGroup? {
        assert q != a.pid ==> k.table[q].group != a.pid;
        assert p != a.pid ==> k.table[p].group != a.pid;
      }
    }
  }

  lemma {:induction false} RunsTidy(b: Behaviour, i: nat)
    requires b.Runs()
    ensures Tidy(b.at(i))
  {
    if i > 0 {
      RunsTidy(b, i - 1);
      DoTidy(b.at(i - 1), b.act(i - 1));
      assert b.at(i - 1 + 1) == Do(b.at(i - 1), b.act(i - 1));
    }
  }

  /** Every member of group g belongs to the given clan. */
  ghost predicate AllOf(k: Kernel, g: int, clan: nat) {
    forall p <- k.table :: k.table[p].group == g ==> k.table[p].clan == clan
  }

  ghost predicate NoneOf(k: Kernel, clan: nat) {
    forall p <- k.table :: k.table[p].clan != clan
  }

  /** While a group keeps a member, its id keeps naming it. */
  lemma StepKeepsGroup(k: Kernel, a: Action, g: int, clan: nat)
    requires Tidy(k) && Enabled(k, a) && AllOf(k, g, clan) && HasGroup(k, g)
    ensures AllOf(Do(k, a), g, clan)
  {
    var m :| m in k.table && k.table[m].group == g;
    assert k.table[m].clan == clan;
  }

  /** A clan without members never has any again. */
  lemma StepKeepsExtinct(k: Kernel, a: Action, clan: nat)
    requires Enabled(k, a) && NoneOf(k, clan) && clan < k.nextClan
    ensures NoneOf(Do(k, a), clan) && clan < Do(k, a).nextClan
  {
  }

  lemma {:induction false} GroupKept(b: Behaviour, g: int, clan: nat, from: nat, to: nat)
    requires b.Runs() && from <= to
    requires AllOf(b.at(from), g, clan)
    requires forall i: nat :: from <= i < to ==> HasGroup(b.at(i), g)
    ensures AllOf(b.at(to), g, clan)
  {
    if from < to {
      GroupKept(b, g, clan, from, to - 1);
      RunsTidy(b, to - 1);
      StepKeepsGroup(b.at(to - 1), b.act(to - 1), g, clan);
      assert b.at(to - 1 + 1) == Do(b.at(to - 1), b.act(to - 1));
    }
  }

  lemma {:induction false} ExtinctForever(b: Behaviour, clan: nat, from: nat, to: nat)
    requires b.Runs() && from <= to
    requires NoneOf(b.at(from), clan) && clan < b.at(from).nextClan
    ensures NoneOf(b.at(to), clan) && clan < b.at(to).nextClan
  {
    if from < to {
      ExtinctForever(b, clan, from, to - 1);
      StepKeepsExtinct(b.at(to - 1), b.act(to - 1), clan);
      assert b.at(to - 1 + 1) == Do(b.at(to - 1), b.act(to - 1));
    }
  }

  /** A clan keeps its group id for as long as it exists. */
  lemma {:induction false} ClanKeepsNumber(b: Behaviour, g: int, clan: nat, from: nat, to: nat)
    requires b.Runs() && from <= to
    requires clan < b.at(from).nextClan
    requires forall p <- b.at(from).table :: b.at(from).table[p].clan == clan ==> b.at(from).table[p].group == g
    ensures clan < b.at(to).nextClan
    ensures forall p <- b.at(to).table :: b.at(to).table[p].clan == clan ==> b.at(to).table[p].group == g
  {
    if from < to {
      ClanKeepsNumber(b, g, clan, from, to - 1);
      assert b.at(to - 1 + 1) == Do(b.at(to - 1), b.act(to - 1));
    }
  }

  /** A recorded group id still names the recorded group, at an instant when the
      id has members, if and only if it has had members at every instant since. */
  lemma GroupIdStableIff(b: Behaviour, g: int, clan: nat, recorded: nat, now: nat)
    requires b.Runs() && recorded <= now
    requires AllOf(b.at(recorded), g, clan) && HasGroup(b.at(recorded), g)
    requires HasGroup(b.at(now), g)
    ensures AllOf(b.at(now), g, clan) <==> forall i: nat :: recorded <= i <= now ==> HasGroup(b.at(i), g)
  {
    if forall i: nat :: recorded <= i <= now ==> HasGroup(b.at(i), g) {
      GroupKept(b, g, clan, recorded, now);
    } else {
      var i: nat :| recorded <= i <= now && !HasGroup(b.at(i), g);
      RunsTidy(b, recorded);
      var m :| m in b.at(recorded).table && b.at(recorded).table[m].group == g;
      ClanKeepsNumber(b, g, clan, recorded, i);
      ExtinctForever(b, clan, i, now);
    }
  }

  /** A pid with its start time names one process for ever. */
  lemma {:induction false} TokenNamesOneProcess(b: Behaviour, pid: int, from: nat, to: nat)
    requires b.Runs() && from <= to && pid in b.at(from).table
    ensures Birth(pid, b.at(from).table[pid].start) in b.at(to).born
    ensures pid in b.at(to).table && b.at(to).table[pid].start == b.at(from).table[pid].start ==>
              b.at(to).table[pid].id == b.at(from).table[pid].id
  {
    if from < to {
      TokenNamesOneProcess(b, pid, from, to - 1);
      assert b.at(to - 1 + 1) == Do(b.at(to - 1), b.act(to - 1));
    } else {
      RunsTidy(b, from);
    }
  }
}
