/** Two-stage termination against a process table that changes between any two
    looks at it. */
module Escalation {
  import opened Common
  import opened ProcessTable

  /** A recorded start token: a float, which may be no number at all. */
  datatype Token = Finite(value: real) | NotFinite

  datatype Target = Leader(pid: int) | Group(pgid: int, leader: int)
  {
    function LeaderPid(): int { if Leader? then pid else leader }
  }

  datatype Signal = Term | Kill

  datatype Outcome = AlreadyGone | TerminatedGracefully | KilledForcefully | Failed

  /** What the supervisor did and saw. Looks are numbered; an event took the looks
      from `from` up to `to`. */
  datatype Event =
    | Checked(ok: bool, from: nat, to: nat)
    | LookedGone(gone: bool, from: nat, to: nat)
    | Signalled(signal: Signal, at: nat, clock: nat, delivered: bool)
  {
    function Begin(): nat { if Signalled? then at else from }

    function End(): nat { if Signalled? then at + 1 else to }
  }

  /** `target_identity_matches`, lines 241-266. */
  predicate IdentityMatches(target: Target, expected: Option<Token>, observed: Option<nat>, alive: bool,
                            group: Option<int>, ownGroup: int)
  {
    && expected.Some? && expected.value.Finite? && expected.value.value >= 0.0
    && (observed.Some? ==> observed.value as real == expected.value.value)
    && match target
       case Leader(pid) => pid > 1 && alive && observed.Some?
       case Group(pgid, leader) =>
         && pgid > 1 && pgid == leader && pgid != ownGroup
         && if observed.Some? then group == Some(pgid) else !alive && group.None?
  }

  /** One entry of the `/proc` directory. */
  datatype DirEntry = Pid(pid: int) | NotAPid | BadEntry

  /** Everything outside the supervisor: the kernel's behaviour, the instant of
      each look, whether a `/proc` entry or the directory could be read, whether a
      signal was permitted, and how much longer than asked each pause took. */
  datatype World = World(
    kernel: Behaviour, when: nat -> nat, readable: nat -> bool,
    listing: nat -> Option<seq<DirEntry>>, permitted: nat -> bool, pause: nat -> nat, ownGroup: int)
  {
    ghost predicate Lawful() {
      kernel.Runs() && forall n: nat :: when(n) < when(n + 1)
    }

    function At(n: nat): Kernel { kernel.at(when(n)) }

    /** `process_fields`: what one read of a `/proc` entry gives. */
    function Fields(n: nat, pid: int): Option<Proc> {
      if pid > 0 && pid in At(n).table && readable(n) then Some(At(n).table[pid]) else None
    }
  }

  /** The processes a signal to the target reaches. */
  function Reached(k: Kernel, target: Target): set<int> {
    match target
    case Leader(pid) => if pid in k.table then {pid} else {}
    case Group(pgid, _) => set p <- k.table | k.table[p].group == pgid
  }

  /** There is something to signal. */
  predicate Exists(k: Kernel, target: Target) {
    match target
    case Leader(pid) => pid in k.table
    case Group(pgid, _) => HasGroup(k, pgid)
  }

  /** A live member of a group. */
  predicate LiveMember(k: Kernel, g: int, p: int) {
    p > 0 && p in k.table && k.table[p].group == g && !k.table[p].zombie
  }

  // ---- what each question answers, look by look ----------------------------

  /** An answer and the number of the next look. */
  datatype Seen = Seen(yes: bool, next: nat)

  /** `is_alive`, lines 38-54: one look at the entry, one at existence. */
  function AliveLook(w: World, n: nat, pid: int): (s: Seen)
    ensures s.next >= n
  {
    if pid <= 0 then Seen(false, n)
    else if w.Fields(n, pid).Some? && w.Fields(n, pid).value.zombie then Seen(false, n + 1)
    else Seen(pid in w.At(n + 1).table, n + 2)
  }

  /** `verified_target`, lines 230-239: three to four looks, not one. */
  function VerifyLook(w: World, n: nat, target: Target, expected: Option<Token>): Seen {
    var pid := target.LeaderPid();
    var fields := w.Fields(n, pid);
    var alive := AliveLook(w, n + 1, pid);
    var again := w.Fields(alive.next, pid);
    Seen(IdentityMatches(target, expected,
                         if fields.Some? then Some(fields.value.start) else None,
                         alive.yes,
                         if again.Some? && again.value.group > 0 then Some(again.value.group) else None,
                         w.ownGroup),
         alive.next + 1)
  }

  /** Lines 112-130, one entry: unknown membership counts as live. */
  function EntryLook(w: World, n: nat, pgid: int, entry: DirEntry): (s: Seen)
    ensures s.next >= n
  {
    match entry
    case BadEntry => Seen(true, n)
    case NotAPid => Seen(false, n)
    case Pid(pid) =>
      var fields := w.Fields(n, pid);
      if fields.Some? then Seen(fields.value.group == pgid && !fields.value.zombie, n + 1)
      else AliveLook(w, n + 1, pid)
  }

  /** The scan up to its first live entry. */
  function ScanLook(w: World, n: nat, pgid: int, entries: seq<DirEntry>): (s: Seen)
    ensures s.next >= n
    decreases entries
  {
    if entries == [] then Seen(false, n)
    else
      var first := EntryLook(w, n, pgid, entries[0]);
      if first.yes then first else ScanLook(w, first.next, pgid, entries[1..])
  }

  /** `group_has_live_members`, lines 104-133. */
  function GroupLook(w: World, n: nat, pgid: int): (s: Seen)
    ensures s.next > n
  {
    if pgid <= 1 || pgid == w.ownGroup then Seen(true, n + 1)
    else if w.listing(n).None? then Seen(HasGroup(w.At(n), pgid), n + 1)
    else ScanLook(w, n + 1, pgid, w.listing(n).value)
  }

  /** `is_gone`, lines 277-282. */
  function GoneLook(w: World, n: nat, target: Target): (r: Seen)
    ensures r.next >= n && (target.Group? ==> r.next > n)
  {
    match target
    case Leader(pid) => var s := AliveLook(w, n, pid); s.(yes := !s.yes)
    case Group(pgid, _) => var s := GroupLook(w, n, pgid); s.(yes := !s.yes)
  }

  class Supervisor {
    const world: World
    /** How many looks so far, and the clock in milliseconds. */
    var looks: nat
    var clock: nat
    var trace: seq<Event>

    constructor (world: World)
      ensures this.world == world && looks == 0 && trace == []
    {
      this.world, looks, clock, trace := world, 0, 0, [];
    }

    method IsAlive(pid: int) returns (alive: bool)
      modifies `looks
      ensures Seen(alive, looks) == AliveLook(world, old(looks), pid)
    {
      alive := false;
      if pid > 0 {
        var fields := world.Fields(looks, pid);
        looks := looks + 1;
        if !(fields.Some? && fields.value.zombie) {
          alive := pid in world.At(looks).table;
          looks := looks + 1;
        }
      }
    }

    method Verify(target: Target, expected: Option<Token>) returns (ok: bool)
      modifies `looks, `trace
      ensures Seen(ok, looks) == VerifyLook(world, old(looks), target, expected)
      ensures trace == old(trace) + [Checked(ok, old(looks), looks)]
    {
      var pid := target.LeaderPid();
      var first := looks;
      var fields := world.Fields(looks, pid);
      var observed := if fields.Some? then Some(fields.value.start) else None;
      looks := looks + 1;
      var alive := IsAlive(pid);
      var again := world.Fields(looks, pid);
      var group := if again.Some? && again.value.group > 0 then Some(again.value.group) else None;
      looks := looks + 1;
      ok := IdentityMatches(target, expected, observed, alive, group, world.ownGroup);
      trace := trace + [Checked(ok, first, looks)];
    }

    /** One pass over `/proc`, each entry read at its own instant. */
    method GroupHasLiveMembers(pgid: int) returns (live: bool)
      modifies `looks
      ensures Seen(live, looks) == GroupLook(world, old(looks), pgid)
    {
      var listing := world.listing(looks);
      var kernel := world.At(looks);
      looks := looks + 1;
      if pgid <= 1 || pgid == world.ownGroup {
        live := true;
      } else if listing.None? {
        live := HasGroup(kernel, pgid);
      } else {
        live := Scan(pgid, listing.value);
      }
    }

    method Scan(pgid: int, entries: seq<DirEntry>) returns (live: bool)
      modifies `looks
      ensures Seen(live, looks) == ScanLook(world, old(looks), pgid, entries)
    {
      live := false;
      var i := 0;
      while i < |entries| && !live
        invariant 0 <= i <= |entries|
        invariant ScanLook(world, old(looks), pgid, entries) ==
                    if live then Seen(true, looks) else ScanLook(world, looks, pgid, entries[i..])
      {
        assert entries[i..][1..] == entries[i + 1..];
        live := LooksLive(pgid, entries[i]);
        i := i + 1;
      }
    }

    method LooksLive(pgid: int, entry: DirEntry) returns (live: bool)
      modifies `looks
      ensures Seen(live, looks) == EntryLook(world, old(looks), pgid, entry)
    {
      match entry {
        case BadEntry => live := true;
        case NotAPid => live := false;
        case Pid(pid) =>
          var fields := world.Fields(looks, pid);
          looks := looks + 1;
          if fields.Some? {
            live := fields.value.group == pgid && !fields.value.zombie;
          } else {
            live := IsAlive(pid);
          }
      }
    }

    method IsGone(target: Target) returns (gone: bool)
      modifies `looks, `trace
      ensures Seen(gone, looks) == GoneLook(world, old(looks), target)
      ensures trace == old(trace) + [LookedGone(gone, old(looks), looks)]
    {
      var first := looks;
      match target {
        case Leader(pid) =>
          var alive := IsAlive(pid);
          gone := !alive;
        case Group(pgid, _) =>
          var live := GroupHasLiveMembers(pgid);
          gone := !live;
      }
      trace := trace + [LookedGone(gone, first, looks)];
    }

    /** `send_sigterm` and `send_sigkill`, lines 284-296: an error when the target
        does not exist or may not be signalled. */
    method Send(target: Target, signal: Signal) returns (delivered: bool)
      modifies `looks, `trace
      ensures looks == old(looks) + 1
      ensures trace == old(trace) + [Signalled(signal, old(looks), clock, delivered)]
      ensures delivered <==> world.permitted(old(looks)) && Exists(world.At(old(looks)), target)
    {
      delivered := world.permitted(looks) && Exists(world.At(looks), target);
      trace := trace + [Signalled(signal, looks, clock, delivered)];
      looks := looks + 1;
    }

    /** Lines 331-337 and 347-353: poll until gone or the deadline passes. */
    method Poll(target: Target, expected: Option<Token>, deadline: nat) returns (gone: bool)
      requires trace != [] && Last(trace).End() == looks
      modifies `looks, `trace, `clock
      ensures old(trace) <= trace && Last(trace).End() == looks
      ensures forall i :: |old(trace)| <= i < |trace| ==> Follows(world, target, expected, trace, i)
      ensures forall i :: |old(trace)| <= i < |trace| ==> trace[i].LookedGone?
      ensures forall i :: |old(trace)| <= i < |trace| && trace[i].gone ==> i == |trace| - 1 && gone
      ensures gone ==> |trace| > |old(trace)| && Last(trace).gone
      ensures !gone ==> clock >= deadline
      ensures clock >= old(clock)
    {
      gone := false;
      clock := clock + world.pause(looks);
      while clock < deadline && !gone
        invariant old(trace) <= trace && Last(trace).End() == looks
        invariant forall i :: |old(trace)| <= i < |trace| ==> Follows(world, target, expected, trace, i)
        invariant forall i :: |old(trace)| <= i < |trace| ==> trace[i].LookedGone?
        invariant forall i :: |old(trace)| <= i < |trace| && trace[i].gone ==> i == |trace| - 1 && gone
        invariant gone ==> |trace| > |old(trace)| && Last(trace).gone
        invariant clock >= old(clock)
        decreases deadline - clock, !gone
      {
        ghost var before := trace;
        gone := IsGone(target);
        FollowsStays(world, target, expected, before, trace, |old(trace)|);
        if !gone {
          clock := clock + 20 + world.pause(looks);
        }
      }
    }

    /** Check the identity, then send: lines 325-330 and 341-346. */
    method SendChecked(target: Target, expected: Option<Token>, signal: Signal, grace: nat, ghost termedAt: nat)
      returns (sent: bool)
      requires Orderly(world, target, expected, trace, looks, grace, signal == Kill, false)
      requires signal == Kill ==> TermedAt(trace, termedAt) && termedAt + grace <= clock
      modifies `looks, `trace
      ensures Disciplined(trace, grace) && Faithful(world, target, expected, trace)
      ensures old(trace) <= trace && |trace| > |old(trace)|
      ensures !sent ==> Unconfirmed(Last(trace))
      ensures sent ==> Orderly(world, target, expected, trace, looks, grace, true, signal == Kill)
      ensures sent && signal == Term ==> TermedAt(trace, clock)
      ensures sent ==> Last(trace).Signalled? && Last(trace).signal == signal
      ensures sent ==> Last(trace).delivered && Last(trace).clock == clock
    {
      ghost var before := trace;
      var ok := Verify(target, expected);
      LooksKeepOrder(world, target, expected, before, trace, looks, grace, signal == Kill, false);
      sent := false;
      if ok {
        ghost var checked := trace;
        sent := Send(target, signal);
        SendKeepsOrder(world, target, expected, checked, Last(trace), grace, termedAt);
      }
    }

    method Wait(target: Target, expected: Option<Token>, deadline: nat, grace: nat, ghost killed: bool)
      returns (gone: bool)
      requires Orderly(world, target, expected, trace, looks, grace, true, killed) && !SawGone(Last(trace))
      modifies `looks, `trace, `clock
      ensures Orderly(world, target, expected, trace, looks, grace, true, killed)
      ensures old(trace) <= trace && clock >= old(clock)
      ensures gone <==> SawGone(Last(trace))
      ensures !gone ==> clock >= deadline
    {
      ghost var before := trace;
      gone := Poll(target, expected, deadline);
      LooksKeepOrder(world, target, expected, before, trace, looks, grace, true, killed);
    }

    /** Lines 331-340: the grace after SIGTERM, and one look more. */
    method AwaitExit(target: Target, expected: Option<Token>, grace: nat) returns (gone: bool)
      requires Orderly(world, target, expected, trace, looks, grace, true, false) && !SawGone(Last(trace))
      modifies `looks, `trace, `clock
      ensures Orderly(world, target, expected, trace, looks, grace, true, false)
      ensures old(trace) <= trace && Last(trace).LookedGone? && Last(trace).gone == gone
      ensures !gone ==> clock >= old(clock) + grace
    {
      gone := Wait(target, expected, clock + grace, grace, false);
      if !gone {
        ghost var before := trace;
        gone := IsGone(target);
        LooksKeepOrder(world, target, expected, before, trace, looks, grace, true, false);
      }
    }

    /** `escalate_owned_target`, lines 317-355. */
    method Escalate(target: Target, expected: Option<Token>, grace: nat) returns (outcome: Outcome)
      modifies this
      ensures Disciplined(trace, grace) && Faithful(world, target, expected, trace)
      ensures trace[0].Begin() == old(looks)
      ensures outcome != Failed ==> SawGone(Last(trace))
      ensures outcome == AlreadyGone <==> SawGone(trace[0])
      ensures outcome == AlreadyGone ==> |trace| == 1
      ensures outcome == TerminatedGracefully ==> Attempted(trace, Term) && !Attempted(trace, Kill)
      ensures outcome == KilledForcefully ==> Attempted(trace, Term) && Attempted(trace, Kill)
      ensures outcome == Failed ==> Unconfirmed(Last(trace)) || Survived(trace, grace, clock)
    {
      trace := [];
      var gone := IsGone(target);
      outcome := AlreadyGone;
      if !gone {
        FirstLook(world, target, expected, trace[0], grace);
        outcome := Pursue(target, expected, grace);
      }
    }

    /** Lines 325-355, after a first look found the target there. */
    method Pursue(target: Target, expected: Option<Token>, grace: nat) returns (outcome: Outcome)
      requires Orderly(world, target, expected, trace, looks, grace, false, false)
      modifies `looks, `trace, `clock
      ensures Disciplined(trace, grace) && Faithful(world, target, expected, trace) && old(trace) <= trace
      ensures outcome != AlreadyGone
      ensures outcome != Failed ==> SawGone(Last(trace))
      ensures outcome == TerminatedGracefully ==> Attempted(trace, Term) && !Attempted(trace, Kill)
      ensures outcome == KilledForcefully ==> Attempted(trace, Term) && Attempted(trace, Kill)
      ensures outcome == Failed ==> Unconfirmed(Last(trace)) || Survived(trace, grace, clock)
    {
      outcome := Failed;
      var sent := SendChecked(target, expected, Term, grace, 0);
      if sent {
        ghost var termedAt, terming := clock, trace;
        var gone := AwaitExit(target, expected, grace);
        if gone {
          outcome := TerminatedGracefully;
        } else {
          TermedAtStays(terming, trace, termedAt);
          outcome := Finish(target, expected, grace, termedAt);
        }
      }
    }

    /** Lines 341-355: the forceful half. */
    method Finish(target: Target, expected: Option<Token>, grace: nat, ghost termedAt: nat) returns (outcome: Outcome)
      requires Orderly(world, target, expected, trace, looks, grace, true, false)
      requires TermedAt(trace, termedAt) && termedAt + grace <= clock
      modifies `looks, `trace, `clock
      ensures Disciplined(trace, grace) && Faithful(world, target, expected, trace) && old(trace) <= trace
      ensures outcome == KilledForcefully || outcome == Failed
      ensures outcome == KilledForcefully ==> SawGone(Last(trace)) && Attempted(trace, Term) && Attempted(trace, Kill)
      ensures outcome == Failed ==> Unconfirmed(Last(trace)) || Survived(trace, grace, clock)
    {
      outcome := Failed;
      var sent := SendChecked(target, expected, Kill, grace, termedAt);
      if sent {
        ghost var killing := trace;
        var gone := Wait(target, expected, clock + Longest(grace, 100), grace, true);
        if gone {
          outcome := KilledForcefully;
        } else {
          StillThere(killing, trace, grace, clock);
        }
      }
    }
  }

  function Longest(a: nat, b: nat): nat { if a >= b then a else b }

  predicate SawGone(e: Event) { e.LookedGone? && e.gone }

  /** Ownership or delivery failed. */
  predicate Unconfirmed(e: Event) {
    (e.Checked? && !e.ok) || (e.Signalled? && !e.delivered)
  }

  /** SIGKILL was delivered, the grace and a tenth of a second have passed since, and
      no look found the target gone. The deadline can pass before the first such look. */
  ghost predicate Survived(t: seq<Event>, grace: nat, clock: nat) {
    && t != [] && !SawGone(Last(t))
    && exists i :: 0 <= i < |t| && t[i].Signalled? && t[i].signal == Kill && t[i].delivered
         && t[i].clock + grace <= clock && t[i].clock + 100 <= clock
  }

  lemma StillThere(killing: seq<Event>, t: seq<Event>, grace: nat, clock: nat)
    requires killing != [] && killing <= t && !SawGone(Last(t))
    requires Last(killing).Signalled? && Last(killing).signal == Kill && Last(killing).delivered
    requires Last(killing).clock + grace <= clock && Last(killing).clock + 100 <= clock
    ensures Survived(t, grace, clock)
  {
    assert t[|killing| - 1] == Last(killing);
  }

  /** Every signal follows at once on a successful check; the first is SIGTERM,
      and a second can only be SIGKILL, after a delivered SIGTERM and the grace. */
  ghost predicate Disciplined(t: seq<Event>, grace: nat) {
    && (forall i :: 0 <= i < |t| && t[i].Signalled? ==> i > 0 && t[i - 1].Checked? && t[i - 1].ok)
    && (forall i :: 0 <= i < |t| && t[i].Signalled? && t[i].signal == Kill ==>
          exists j :: 0 <= j < i && Terminating(t[j]))
    && (forall i, j :: 0 <= i < j < |t| && t[i].Signalled? && t[j].Signalled? ==>
          Terminating(t[i]) && t[j].signal == Kill && t[i].clock + grace <= t[j].clock)
  }

  predicate Terminating(e: Event) {
    e.Signalled? && e.signal == Term && e.delivered
  }

  ghost predicate Attempted(t: seq<Event>, signal: Signal) {
    exists i :: 0 <= i < |t| && t[i].Signalled? && t[i].signal == signal
  }

  function Last(t: seq<Event>): Event
    requires t != []
  {
    t[|t| - 1]
  }

  /** The event reports what its looks show. */
  ghost predicate Authentic(w: World, target: Target, expected: Option<Token>, e: Event) {
    match e
    case Checked(ok, from, to) => Seen(ok, to) == VerifyLook(w, from, target, expected)
    case LookedGone(gone, from, to) => Seen(gone, to) == GoneLook(w, from, target)
    case Signalled(_, at, _, delivered) => delivered <==> w.permitted(at) && Exists(w.At(at), target)
  }

  /** Event i is authentic and starts where the event before it ended. */
  ghost predicate Follows(w: World, target: Target, expected: Option<Token>, t: seq<Event>, i: nat)
    requires i < |t|
  {
    Authentic(w, target, expected, t[i]) && (i > 0 ==> t[i].Begin() == t[i - 1].End())
  }

  /** The trace reports every look and every signal, without a gap. */
  ghost predicate Faithful(w: World, target: Target, expected: Option<Token>, t: seq<Event>) {
    t != [] && forall i :: 0 <= i < |t| ==> Follows(w, target, expected, t, i)
  }

  lemma FollowsStays(w: World, target: Target, expected: Option<Token>, t: seq<Event>, t': seq<Event>, n: nat)
    requires t <= t' && n <= |t|
    requires forall i :: n <= i < |t| ==> Follows(w, target, expected, t, i)
    requires forall i :: |t| <= i < |t'| ==> Follows(w, target, expected, t', i)
    ensures forall i :: n <= i < |t'| ==> Follows(w, target, expected, t', i)
  {
    forall i | n <= i < |t| ensures Follows(w, target, expected, t', i) {
      assert Follows(w, target, expected, t, i) && t'[i] == t[i] && (i > 0 ==> t'[i - 1] == t[i - 1]);
    }
  }

  /** Disciplined, faithful up to now, and what was sent so far. */
  ghost predicate Orderly(w: World, target: Target, expected: Option<Token>, t: seq<Event>, now: nat, grace: nat,
                          termed: bool, killed: bool)
  {
    && Disciplined(t, grace) && Faithful(w, target, expected, t) && Last(t).End() == now
    && (Attempted(t, Term) <==> termed) && (Attempted(t, Kill) <==> killed)
  }

  lemma FirstLook(w: World, target: Target, expected: Option<Token>, e: Event, grace: nat)
    requires e.LookedGone? && Authentic(w, target, expected, e)
    ensures Orderly(w, target, expected, [e], e.to, grace, false, false)
  {
  }

  lemma LooksKeepOrder(w: World, target: Target, expected: Option<Token>, t: seq<Event>, t': seq<Event>, now: nat,
                       grace: nat, termed: bool, killed: bool)
    requires t != [] && Orderly(w, target, expected, t, Last(t).End(), grace, termed, killed)
    requires t <= t' && Last(t').End() == now
    requires forall i :: |t| <= i < |t'| ==> !t'[i].Signalled? && Follows(w, target, expected, t', i)
    ensures Orderly(w, target, expected, t', now, grace, termed, killed)
  {
    FollowsStays(w, target, expected, t, t', 0);
    assert forall i :: 0 <= i < |t| ==> t'[i] == t[i];
    assert forall i :: 0 <= i < |t'| && t'[i].Signalled? ==> i < |t|;
  }

  ghost predicate TermedAt(t: seq<Event>, clock: nat) {
    exists j :: 0 <= j < |t| && Terminating(t[j]) && t[j].clock == clock
  }

  lemma TermedAtStays(t: seq<Event>, t': seq<Event>, clock: nat)
    requires TermedAt(t, clock) && t <= t'
    ensures TermedAt(t', clock)
  {
    var j :| 0 <= j < |t| && Terminating(t[j]) && t[j].clock == clock;
    assert t'[j] == t[j];
  }

  lemma SendKeepsOrder(w: World, target: Target, expected: Option<Token>, t: seq<Event>, e: Event,
                       grace: nat, termedAt: nat)
    requires e.Signalled? && Authentic(w, target, expected, e)
    requires Orderly(w, target, expected, t, e.at, grace, e.signal == Kill, false)
    requires Last(t).Checked? && Last(t).ok
    requires e.signal == Kill ==> TermedAt(t, termedAt) && termedAt + grace <= e.clock
    ensures Orderly(w, target, expected, t + [e], e.at + 1, grace, true, e.signal == Kill)
    ensures e.signal == Term && e.delivered ==> TermedAt(t + [e], e.clock)
  {
    var t' := t + [e];
    assert t'[|t|] == e && t'[|t| - 1] == Last(t);
    FollowsStays(w, target, expected, t, t', 0);
    SendKeepsDiscipline(t, e, grace, termedAt);
  }

  lemma SendKeepsDiscipline(t: seq<Event>, e: Event, grace: nat, termedAt: nat)
    requires e.Signalled? && Disciplined(t, grace) && t != [] && Last(t).Checked? && Last(t).ok
    requires (Attempted(t, Term) <==> e.signal == Kill) && !Attempted(t, Kill)
    requires e.signal == Kill ==> TermedAt(t, termedAt) && termedAt + grace <= e.clock
    ensures Disciplined(t + [e], grace)
    ensures Attempted(t + [e], Term) && (Attempted(t + [e], Kill) <==> e.signal == Kill)
    ensures e.signal == Term && e.delivered ==> TermedAt(t + [e], e.clock)
  {
    var t' := t + [e];
    assert t'[|t|] == e;
    if e.signal == Kill {
      var j :| 0 <= j < |t| && Terminating(t[j]) && t[j].clock == termedAt;
      assert Terminating(t'[j]);
      assert forall i :: 0 <= i < |t| && t[i].Signalled? ==> i == j;
    }
  }
}
