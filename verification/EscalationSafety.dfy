/** Whom a checked signal can reach, and when a scan that finds nobody is right. */
module EscalationSafety {
  import opened Common
  import opened ProcessTable
  import opened Escalation

  lemma {:induction false} LooksAreOrdered(w: World, n: nat, m: nat)
    requires w.Lawful() && n <= m
    ensures w.when(n) <= w.when(m)
  {
    if n < m {
      LooksAreOrdered(w, n, m - 1);
      assert w.when(m - 1) < w.when(m - 1 + 1);
    }
  }

  /** A group signal reaches only the recorded group if and only if that group
      has had a member at every instant since it was recorded, whatever happens
      between the check and the signal. */
  lemma GroupSignalInsideIff(w: World, target: Target, clan: nat, recorded: nat, n: nat)
    requires w.Lawful() && target.Group? && recorded <= w.when(n)
    requires AllOf(w.kernel.at(recorded), target.pgid, clan) && HasGroup(w.kernel.at(recorded), target.pgid)
    requires Exists(w.At(n), target)
    ensures StaysInside(w, target, clan, n) <==> NeverEmpty(w, target.pgid, recorded, w.when(n))
  {
    GroupIdStableIff(w.kernel, target.pgid, clan, recorded, w.when(n));
  }

  /** Over a whole escalation, each delivered signal stays inside the recorded
      group if and only if that group had a member at every instant from its
      recording up to the signal. What becomes of it afterwards does not matter. */
  lemma EscalationStaysInside(w: World, target: Target, expected: Option<Token>, t: seq<Event>,
                              clan: nat, recorded: nat)
    requires w.Lawful() && target.Group? && recorded <= w.when(0)
    requires Faithful(w, target, expected, t)
    requires AllOf(w.kernel.at(recorded), target.pgid, clan) && HasGroup(w.kernel.at(recorded), target.pgid)
    ensures forall i :: 0 <= i < |t| && t[i].Signalled? && t[i].delivered ==>
              (StaysInside(w, target, clan, t[i].at) <==> NeverEmpty(w, target.pgid, recorded, w.when(t[i].at)))
  {
    forall i | 0 <= i < |t| && t[i].Signalled? && t[i].delivered
      ensures StaysInside(w, target, clan, t[i].at) <==> NeverEmpty(w, target.pgid, recorded, w.when(t[i].at))
    {
      LooksAreOrdered(w, 0, t[i].at);
      assert Follows(w, target, expected, t, i);
      GroupSignalInsideIff(w, target, clan, recorded, t[i].at);
    }
  }

  /** A signal at look n reaches only the given clan. */
  ghost predicate StaysInside(w: World, target: Target, clan: nat, n: nat) {
    forall p <- Reached(w.At(n), target) :: w.At(n).table[p].clan == clan
  }

  ghost predicate NeverEmpty(w: World, g: int, from: nat, to: nat) {
    forall i: nat :: from <= i <= to ==> HasGroup(w.kernel.at(i), g)
  }

  /** A leader signal reaches the checked process unless the pid has been issued
      again, with another start time, between the check and the signal. */
  lemma LeaderSignalInside(w: World, pid: int, checked: nat, n: nat)
    requires w.Lawful() && checked <= n
    requires pid in w.At(checked).table && pid in w.At(n).table
    ensures w.At(n).table[pid].start == w.At(checked).table[pid].start ==>
              w.At(n).table[pid].id == w.At(checked).table[pid].id
  {
    LooksAreOrdered(w, checked, n);
    TokenNamesOneProcess(w.kernel, pid, w.when(checked), w.when(n));
  }

  /** No run signals more than twice: SIGTERM, then SIGKILL. */
  lemma OneTermThenOneKill(t: seq<Event>, grace: nat, i: nat, j: nat)
    requires Disciplined(t, grace) && i < j < |t| && t[i].Signalled? && t[j].Signalled?
    ensures t[i].signal == Term && t[j].signal == Kill && t[i].clock + grace <= t[j].clock
    ensures forall k :: 0 <= k < |t| && t[k].Signalled? ==> k == i || k == j
  {
  }

  /** Over a whole escalation of a leader, each delivered signal follows on a
      reading of the original start token, and reaches the process that was read
      unless that pid has been issued again since. */
  lemma LeaderSignalsInside(w: World, pid: int, expected: Option<Token>, t: seq<Event>, grace: nat, i: nat)
    requires w.Lawful() && Faithful(w, Leader(pid), expected, t) && Disciplined(t, grace)
    requires i < |t| && t[i].Signalled? && t[i].delivered
    ensures i > 0 && t[i - 1].Checked? && pid in w.At(t[i - 1].from).table && pid in w.At(t[i].at).table
    ensures expected == Some(Finite(w.At(t[i - 1].from).table[pid].start as real))
    ensures w.At(t[i].at).table[pid].start == w.At(t[i - 1].from).table[pid].start ==>
              w.At(t[i].at).table[pid].id == w.At(t[i - 1].from).table[pid].id
  {
    assert Follows(w, Leader(pid), expected, t, i) && Follows(w, Leader(pid), expected, t, i - 1);
    LeaderCheckSaw(w, t[i - 1].from, pid, expected);
    LeaderSignalInside(w, pid, t[i - 1].from, t[i].at);
  }

  /** A world in which the supervisor looks at the states one after another from
      the `first` on, everything readable and permitted. */
  function Watched(states: seq<Kernel>, acts: seq<Action>, first: nat, stride: nat, listing: seq<DirEntry>): World
    requires |states| == |acts| + 1
  {
    World(Played(states, acts), n => first + stride * n, n => true, n => Some(listing), n => true, n => 0, 1)
  }

  lemma WatchedLawful(states: seq<Kernel>, acts: seq<Action>, first: nat, stride: nat, listing: seq<DirEntry>)
    requires |states| == |acts| + 1 && Tidy(states[0]) && stride > 0
    requires forall i :: 0 <= i < |acts| ==> Enabled(states[i], acts[i]) && states[i + 1] == Do(states[i], acts[i])
    ensures Watched(states, acts, first, stride, listing).Lawful()
  {
    PlayedRuns(states, acts);
    var w := Watched(states, acts, first, stride, listing);
    forall n: nat ensures w.when(n) < w.when(n + 1) {
      assert stride * (n + 1) == stride * n + stride;
    }
  }

  /** With the group emptied and its id issued again, the check passes on a
      stranger's group, and the signal that follows reaches it: the stranger that
      led it has exited, so no start time is left to compare. */
  lemma RecycledGroupPasses() returns (w: World)
    ensures w.Lawful() && w.when(0) > 0
    ensures HasGroup(w.kernel.at(0), 5) && AllOf(w.kernel.at(0), 5, 0)
    ensures 5 in w.kernel.at(0).table && w.kernel.at(0).table[5].start == 3
    ensures var check := VerifyLook(w, 0, Group(5, 5), Some(Finite(3.0)));
            check.yes && Exists(w.At(check.next), Group(5, 5)) && w.permitted(check.next)
            && forall p <- Reached(w.At(check.next), Group(5, 5)) :: w.At(check.next).table[p].clan != 0
  {
    var states, acts := GroupRecycled();
    WatchedLawful(states, acts, 7, 1, []);
    w := Watched(states, acts, 7, 1, []);
    assert w.kernel.at(0) == states[0] && states[0].table[5].group == 5;
    assert forall n: nat :: w.At(n) == states[7];
    StrangersOnly(w, states[7]);
  }

  /** Group 5 empties, and its id is issued again to a group whose leader exits. */
  lemma GroupRecycled() returns (states: seq<Kernel>, acts: seq<Action>)
    ensures |acts| == 7 && |states| == 8 && Tidy(states[0])
    ensures forall i :: 0 <= i < |acts| ==> Enabled(states[i], acts[i]) && states[i + 1] == Do(states[i], acts[i])
    ensures states[0].table == map[1 := Proc(0, 1, false, 0, 1), 5 := Proc(3, 5, false, 1, 0)]
    ensures states[7].table == map[1 := Proc(0, 1, false, 0, 1), 6 := Proc(10, 5, false, 3, 2)]
  {
    var k0 := Kernel(map[1 := INIT, 5 := Proc(3, 5, false, 1, 0)], {Birth(1, 0), Birth(5, 3)}, 2, 2);
    var k1, k2 := Emptied(k0);
    var k3, k4 := Reissued(k2);
    var k5, k6, k7 := LeftBehind(k4);
    states := [k0, k1, k2, k3, k4, k5, k6, k7];
    acts := [Exit(5), Reap(5), Fork(1, 5, 9), NewGroup(5), Fork(5, 6, 10), Exit(5), Reap(5)];
  }

  const INIT: Proc := Proc(0, 1, false, 0, 1)

  ghost predicate Takes(k: Kernel, a: Action, k': Kernel) {
    Enabled(k, a) && k' == Do(k, a)
  }

  lemma Emptied(k0: Kernel) returns (k1: Kernel, k2: Kernel)
    requires k0 == Kernel(map[1 := INIT, 5 := Proc(3, 5, false, 1, 0)], {Birth(1, 0), Birth(5, 3)}, 2, 2)
    ensures Takes(k0, Exit(5), k1) && Takes(k1, Reap(5), k2)
    ensures k2 == Kernel(map[1 := INIT], {Birth(1, 0), Birth(5, 3)}, 2, 2)
  {
    k1 := Do(k0, Exit(5));
    k2 := Do(k1, Reap(5));
  }

  lemma Reissued(k2: Kernel) returns (k3: Kernel, k4: Kernel)
    requires k2 == Kernel(map[1 := INIT], {Birth(1, 0), Birth(5, 3)}, 2, 2)
    ensures Takes(k2, Fork(1, 5, 9), k3) && Takes(k3, NewGroup(5), k4)
    ensures k4 == Kernel(map[1 := INIT, 5 := Proc(9, 5, false, 2, 2)], {Birth(1, 0), Birth(5, 3), Birth(5, 9)}, 3, 3)
  {
    k3 := Do(k2, Fork(1, 5, 9));
    assert k3.table == map[1 := INIT, 5 := Proc(9, 1, false, 2, 1)];
    k4 := Do(k3, NewGroup(5));
  }

  lemma LeftBehind(k4: Kernel) returns (k5: Kernel, k6: Kernel, k7: Kernel)
    requires k4 == Kernel(map[1 := INIT, 5 := Proc(9, 5, false, 2, 2)], {Birth(1, 0), Birth(5, 3), Birth(5, 9)}, 3, 3)
    ensures Takes(k4, Fork(5, 6, 10), k5) && Takes(k5, Exit(5), k6) && Takes(k6, Reap(5), k7)
    ensures k7.table == map[1 := INIT, 6 := Proc(10, 5, false, 3, 2)]
  {
    k5 := Do(k4, Fork(5, 6, 10));
    k6 := Do(k5, Exit(5));
    k7 := Do(k6, Reap(5));
  }

  lemma StrangersOnly(w: World, k: Kernel)
    requires forall n: nat :: w.At(n) == k && w.readable(n) && w.permitted(n)
    requires w.ownGroup == 1 && k.table == map[1 := Proc(0, 1, false, 0, 1), 6 := Proc(10, 5, false, 3, 2)]
    ensures var check := VerifyLook(w, 0, Group(5, 5), Some(Finite(3.0)));
            check.yes && Exists(w.At(check.next), Group(5, 5)) && w.permitted(check.next)
            && forall p <- Reached(w.At(check.next), Group(5, 5)) :: w.At(check.next).table[p].clan != 0
  {
    assert AliveLook(w, 1, 5) == Seen(false, 3);
    assert k.table[6].group == 5;
  }

  // ---- the scan -----------------------------------------------------------

  /** The action puts nobody new into the group. */
  predicate NoEntry(k: Kernel, a: Action, g: int)
    requires Enabled(k, a)
  {
    match a
    case Fork(parent, _, _) => k.table[parent].group != g
    case NewGroup(pid) => pid != g
    case Join(pid, other) => k.table[other].group != g || k.table[pid].group == g
    case _ => true
  }

  /** A scan that found nobody saw each listed process not live in the group. */
  lemma {:induction false} ScanSaw(w: World, n: nat, g: int, entries: seq<DirEntry>)
    requires !ScanLook(w, n, g, entries).yes
    ensures forall p :: p > 0 && Pid(p) in entries ==>
              exists m :: n <= m < ScanLook(w, n, g, entries).next && !LiveMember(w.At(m), g, p)
    decreases entries
  {
    if entries != [] {
      var first := EntryLook(w, n, g, entries[0]);
      ScanSaw(w, first.next, g, entries[1..]);
      assert entries == [entries[0]] + entries[1..];
      if entries[0].Pid? && entries[0].pid > 0 {
        var m := EntrySaw(w, n, g, entries[0].pid);
      }
    }
  }

  /** A readable entry counts as live exactly if it is a live member of the group. */
  lemma EntryLiveIff(w: World, n: nat, g: int, pid: int)
    requires pid > 0 && Read(w, n, pid)
    ensures EntryLook(w, n, g, Pid(pid)).yes <==> LiveMember(w.At(n), g, pid)
  {
  }

  /** What makes an entry count as live: it cannot be read at all, or its process is
      a live member, or its process could not be read and then still existed. */
  ghost predicate FoundLive(w: World, m: nat, g: int, entry: DirEntry) {
    || entry.BadEntry?
    || (&& entry.Pid? && entry.pid > 0
        && if Read(w, m, entry.pid) then LiveMember(w.At(m), g, entry.pid)
           else !ReadDead(w, m + 1, entry.pid) && entry.pid in w.At(m + 2).table)
  }

  /** A scan finds somebody only where one of its entries counts as live at the look
      that reads it. */
  lemma {:induction false} ScanFoundSomebody(w: World, n: nat, g: int, entries: seq<DirEntry>)
    requires ScanLook(w, n, g, entries).yes
    ensures exists e, m: nat :: e in entries && n <= m <= ScanLook(w, n, g, entries).next && FoundLive(w, m, g, e)
    decreases entries
  {
    var first := EntryLook(w, n, g, entries[0]);
    if first.yes {
      assert entries[0] in entries && FoundLive(w, n, g, entries[0]);
    } else {
      ScanFoundSomebody(w, first.next, g, entries[1..]);
      var e, m: nat :|
        e in entries[1..] && first.next <= m <= ScanLook(w, n, g, entries).next && FoundLive(w, m, g, e);
      assert e in entries;
    }
  }

  lemma EntrySaw(w: World, n: nat, g: int, pid: int) returns (m: nat)
    requires pid > 0 && !EntryLook(w, n, g, Pid(pid)).yes
    ensures n <= m < EntryLook(w, n, g, Pid(pid)).next && !LiveMember(w.At(m), g, pid)
  {
    m := if w.Fields(n, pid).Some? then n else EntryLook(w, n, g, Pid(pid)).next - 1;
  }

  /** A leader seen gone was dead or no process at some instant of the look. */
  lemma LeaderSeenGone(w: World, n: nat, pid: int)
    requires pid > 0 && GoneLook(w, n, Leader(pid)).yes
    ensures exists m :: n <= m < GoneLook(w, n, Leader(pid)).next
              && (pid !in w.At(m).table || w.At(m).table[pid].zombie)
  {
    var m := GoneLook(w, n, Leader(pid)).next - 1;
    assert pid !in w.At(m).table || w.At(m).table[pid].zombie;
  }

  /** The looks of a leader's liveness found it there: not read as a zombie at the
      first, and existing at the second. */
  lemma LeaderSeenLiveIff(w: World, n: nat, pid: int)
    ensures GoneLook(w, n, Leader(pid)).yes <==> !(pid > 0 && !ReadDead(w, n, pid) && pid in w.At(n + 1).table)
  {
  }

  /** Look n read the process table's entry for the pid. */
  ghost predicate Read(w: World, n: nat, pid: int) {
    pid in w.At(n).table && w.readable(n)
  }

  ghost predicate ReadDead(w: World, n: nat, pid: int) {
    Read(w, n, pid) && w.At(n).table[pid].zombie
  }

  ghost predicate ReadInGroup(w: World, n: nat, pid: int, g: int) {
    Read(w, n, pid) && w.At(n).table[pid].group == g
  }

  /** The look that reads the group, after one or two at liveness. */
  function GroupReading(w: World, n: nat, pid: int): nat { AliveLook(w, n + 1, pid).next }

  /** Exactly when the check of a leader passes: it read the recorded start token,
      and the two looks after that found the process alive. */
  lemma LeaderCheckIff(w: World, n: nat, pid: int, expected: Option<Token>)
    ensures VerifyLook(w, n, Leader(pid), expected).yes <==>
              && pid > 1 && Read(w, n, pid) && expected == Some(Finite(w.At(n).table[pid].start as real))
              && !ReadDead(w, n + 1, pid) && pid in w.At(n + 2).table
  {
  }

  /** Exactly when the check of a group passes. Either it read the recorded start
      token of the leader and then the leader in that group, or it read no token
      and then found the leader dead and in no group. */
  lemma GroupCheckIff(w: World, n: nat, pgid: int, leader: int, expected: Option<Token>)
    ensures VerifyLook(w, n, Group(pgid, leader), expected).yes <==>
              && pgid == leader && pgid > 1 && pgid != w.ownGroup
              && if Read(w, n, leader)
                 then expected == Some(Finite(w.At(n).table[leader].start as real))
                      && ReadInGroup(w, GroupReading(w, n, leader), leader, pgid)
                 else && expected.Some? && expected.value.Finite? && expected.value.value >= 0.0
                      && (ReadDead(w, n + 1, leader) || leader !in w.At(n + 2).table)
                      && (forall g :: g > 0 ==> !ReadInGroup(w, GroupReading(w, n, leader), leader, g))
  {
    if leader > 0 && Read(w, GroupReading(w, n, leader), leader) {
      var g := w.At(GroupReading(w, n, leader)).table[leader].group;
      assert ReadInGroup(w, GroupReading(w, n, leader), leader, g);
    }
  }

  /** A passed check of a leader read the original start token from a process
      that held the pid. */
  lemma LeaderCheckSaw(w: World, n: nat, pid: int, expected: Option<Token>)
    requires VerifyLook(w, n, Leader(pid), expected).yes
    ensures pid > 1 && pid in w.At(n).table && expected == Some(Finite(w.At(n).table[pid].start as real))
  {
  }

  /** What the check before a group signal saw of the leader. */
  ghost predicate LeaderVouched(w: World, leader: int, recorded: nat, from: nat, to: nat)
    requires leader in w.kernel.at(recorded).table
  {
    if Read(w, from, leader)
    then w.At(from).table[leader].id == w.kernel.at(recorded).table[leader].id
         && exists m: nat :: from < m < to && ReadInGroup(w, m, leader, leader)
    else exists m: nat :: from < m < to && (leader !in w.At(m).table || w.At(m).table[leader].zombie)
  }

  lemma CheckVouches(w: World, n: nat, leader: int, expected: Option<Token>, recorded: nat)
    requires w.Lawful() && VerifyLook(w, n, Group(leader, leader), expected).yes
    requires recorded <= w.when(0) && leader in w.kernel.at(recorded).table
    requires expected == Some(Finite(w.kernel.at(recorded).table[leader].start as real))
    ensures LeaderVouched(w, leader, recorded, n, VerifyLook(w, n, Group(leader, leader), expected).next)
  {
    GroupCheckIff(w, n, leader, leader, expected);
    var m := GroupReading(w, n, leader);
    if Read(w, n, leader) {
      LooksAreOrdered(w, 0, n);
      TokenNamesOneProcess(w.kernel, leader, recorded, w.when(n));
      assert ReadInGroup(w, m, leader, leader);
    } else {
      assert leader !in w.At(m - 1).table || w.At(m - 1).table[leader].zombie;
    }
  }

  /** Over a whole escalation of a group, each delivered signal follows at once on
      looks that read the recorded leader itself and then that pid in the group, or
      read nothing of it and then found it dead. A stranger that holds the pid and
      can be read is never taken for the leader. */
  lemma GroupSignalsVouched(w: World, pgid: int, leader: int, expected: Option<Token>, t: seq<Event>, grace: nat,
                            i: nat, recorded: nat)
    requires w.Lawful() && Faithful(w, Group(pgid, leader), expected, t) && Disciplined(t, grace)
    requires i < |t| && t[i].Signalled? && t[i].delivered
    requires recorded <= w.when(0) && leader in w.kernel.at(recorded).table
    requires expected == Some(Finite(w.kernel.at(recorded).table[leader].start as real))
    ensures i > 0 && t[i - 1].Checked? && t[i - 1].to == t[i].at && pgid == leader && pgid > 1 && pgid != w.ownGroup
    ensures LeaderVouched(w, leader, recorded, t[i - 1].from, t[i].at)
  {
    var target := Group(pgid, leader);
    assert Follows(w, target, expected, t, i) && Follows(w, target, expected, t, i - 1);
    GroupCheckIff(w, t[i - 1].from, pgid, leader, expected);
    CheckVouches(w, t[i - 1].from, leader, expected, recorded);
  }

  /** Process p came to be a live member of the group within the interval, and
      stayed one to its end. */
  ghost predicate Entered(b: Behaviour, g: int, p: int, from: nat, to: nat) {
    exists i: nat :: from <= i < to && LiveFromOn(b, g, p, i, to)
  }

  ghost predicate LiveFromOn(b: Behaviour, g: int, p: int, i: nat, to: nat) {
    !LiveMember(b.at(i), g, p) && forall j: nat :: i < j <= to ==> LiveMember(b.at(j), g, p)
  }

  lemma {:induction false} LastNotLive(b: Behaviour, g: int, p: int, from: nat, to: nat)
    requires from <= to && !LiveMember(b.at(from), g, p) && LiveMember(b.at(to), g, p)
    ensures Entered(b, g, p, from, to)
  {
    if LiveMember(b.at(to - 1), g, p) {
      LastNotLive(b, g, p, from, to - 1);
      var i: nat :| from <= i < to - 1 && LiveFromOn(b, g, p, i, to - 1);
      assert LiveFromOn(b, g, p, i, to);
    } else {
      assert LiveFromOn(b, g, p, to - 1, to);
    }
  }

  /** The scan that answers "gone" saw each process not live at some look, when its
      listing held every live member. */
  lemma GoneSaw(w: World, n: nat, target: Target, p: int) returns (m: nat)
    requires w.Lawful() && target.Group? && GoneLook(w, n, target).yes
    requires w.listing(n).Some? && LiveMember(w.At(n), target.pgid, p) ==> Pid(p) in w.listing(n).value
    ensures n <= m < GoneLook(w, n, target).next && !LiveMember(w.At(m), target.pgid, p)
  {
    m := n;
    if w.listing(n).Some? && LiveMember(w.At(n), target.pgid, p) {
      ScanSaw(w, n + 1, target.pgid, w.listing(n).value);
      m :| n + 1 <= m < GoneLook(w, n, target).next && !LiveMember(w.At(m), target.pgid, p);
    }
  }

  /** A group answered gone is neither the supervisor's own nor one that must not be
      signalled; without a listing it had no member at all. */
  lemma GroupGoneMeans(w: World, n: nat, pgid: int, leader: int)
    requires GoneLook(w, n, Group(pgid, leader)).yes
    ensures pgid > 1 && pgid != w.ownGroup
    ensures w.listing(n).None? ==> forall p <- w.At(n).table :: w.At(n).table[p].group != pgid
    ensures w.listing(n).Some? ==> BadEntry !in w.listing(n).value
  {
    if w.listing(n).Some? {
      ScanReadAll(w, n + 1, pgid, w.listing(n).value);
    }
  }

  lemma {:induction false} ScanReadAll(w: World, n: nat, g: int, entries: seq<DirEntry>)
    requires !ScanLook(w, n, g, entries).yes
    ensures BadEntry !in entries
    decreases entries
  {
    if entries != [] {
      ScanReadAll(w, EntryLook(w, n, g, entries[0]).next, g, entries[1..]);
      assert entries == [entries[0]] + entries[1..];
    }
  }

  /** When a group seen gone is gone. With a listing that held every live member at
      the start of the scan, a process is a live member at the scan's last look if
      and only if it became one while the scan ran, and stayed one. */
  lemma GroupSeenGoneIff(w: World, n: nat, target: Target, p: int)
    requires w.Lawful() && target.Group? && GoneLook(w, n, target).yes
    requires w.listing(n).Some? && LiveMember(w.At(n), target.pgid, p) ==> Pid(p) in w.listing(n).value
    ensures var last := GoneLook(w, n, target).next - 1;
            LiveMember(w.At(last), target.pgid, p) <==> Entered(w.kernel, target.pgid, p, w.when(n), w.when(last))
  {
    var last, g := GoneLook(w, n, target).next - 1, target.pgid;
    if LiveMember(w.At(last), g, p) {
      var m := GoneSaw(w, n, target, p);
      LooksAreOrdered(w, n, m);
      LooksAreOrdered(w, m, last);
      LastNotLive(w.kernel, g, p, w.when(m), w.when(last));
      var i: nat :| w.when(m) <= i < w.when(last) && LiveFromOn(w.kernel, g, p, i, w.when(last));
    }
  }

  /** It is the actions that put somebody in: with none of those during the scan
      nobody is left. */
  lemma GoneIfNobodyEnters(w: World, n: nat, target: Target, p: int)
    requires w.Lawful() && target.Group? && GoneLook(w, n, target).yes
    requires w.listing(n).Some? && LiveMember(w.At(n), target.pgid, p) ==> Pid(p) in w.listing(n).value
    requires forall i: nat :: w.when(n) <= i < w.when(GoneLook(w, n, target).next - 1) ==>
               Enabled(w.kernel.at(i), w.kernel.act(i)) && NoEntry(w.kernel.at(i), w.kernel.act(i), target.pgid)
    ensures !LiveMember(w.At(GoneLook(w, n, target).next - 1), target.pgid, p)
  {
    var last, g := GoneLook(w, n, target).next - 1, target.pgid;
    GroupSeenGoneIff(w, n, target, p);
    forall i: nat | w.when(n) <= i < w.when(last) ensures !LiveFromOn(w.kernel, g, p, i, w.when(last)) {
      NobodyNew(w.kernel, g, p, i);
    }
  }

  lemma NobodyNew(b: Behaviour, g: int, p: int, i: nat)
    requires b.Runs() && Enabled(b.at(i), b.act(i)) && NoEntry(b.at(i), b.act(i), g)
    ensures LiveMember(b.at(i + 1), g, p) ==> LiveMember(b.at(i), g, p)
  {
    assert b.at(i + 1) == Do(b.at(i), b.act(i));
  }

  /** The scan can be wrong: with a complete listing it answers "gone" although the
      one listed member forked before it exited and the child lives. */
  lemma ScanCanMissAFork() returns (w: World)
    ensures w.Lawful()
    ensures w.listing(0) == Some([Pid(7)]) && forall p :: LiveMember(w.At(0), 7, p) <==> p == 7
    ensures var look := GoneLook(w, 0, Group(7, 7));
            look.yes && look.next > 0 && LiveMember(w.At(look.next - 1), 7, 6)
  {
    var k0 := Kernel(map[7 := Proc(3, 7, false, 0, 0)], {Birth(7, 3)}, 1, 1);
    var k1 := Do(k0, Fork(7, 6, 4));
    var k2 := Do(k1, Exit(7));
    var states, acts := [k0, k1, k2], [Fork(7, 6, 4), Exit(7)];
    WatchedLawful(states, acts, 0, 2, [Pid(7)]);
    w := Watched(states, acts, 0, 2, [Pid(7)]);
    assert w.At(0) == k0 && w.At(1) == k2;
    assert EntryLook(w, 1, 7, Pid(7)) == Seen(false, 2);
    assert [Pid(7)][1..] == [];
    assert GoneLook(w, 0, Group(7, 7)) == Seen(true, 2);
  }
}
