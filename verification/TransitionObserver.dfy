/** The observer as an object beside its ledger. */
module TransitionObserver {
  import opened Common
  import opened LedgerFormat
  import opened LedgerState
  import opened LedgerFile
  import opened LedgerRecovery
  import opened LedgerObserver
  import LedgerStanding
  import AuditLedger

  /** The keys of a set in some order, as a hash map yields them. */
  method Enumerate(keys: set<GenKey>) returns (order: seq<GenKey>)
    ensures Lists(order, keys)
  {
    order := [];
    var rest := keys;
    while rest != {}
      invariant rest <= keys
      invariant Distinct(order)
      invariant forall k :: k in order <==> k in keys && k !in rest
      decreases |rest|
    {
      var k :| k in rest;
      order := order + [k];
      rest := rest - {k};
    }
  }

  class TransitionObserver {
    var decisions: map<GenKey, bool>
    var contracts: map<string, string>
    var alarms: set<Alarm>
    var absent: set<Absence>

    function Memory(): View
      reads this
    {
      View(decisions, contracts, alarms, absent)
    }

    /** The observer beside everything handed to its ledger. */
    ghost function With(ledger: AuditLedger.AuditLedger): Sys
      reads this, ledger
    {
      Sys(Memory(), ledger.Sent())
    }

    /** `LedgerHistory::load`: a restart remembers what the file replays to. */
    constructor FromLedger(ledger: AuditLedger.AuditLedger)
      ensures Memory() == Replay(ledger.Log())
    {
      var records := AuditLedger.ReadRecords(ledger.env, BytesOf(ledger.disk.content));
      var view := Load(records);
      decisions, contracts, alarms, absent := view.decisions, view.contracts, view.alarms, view.absent;
    }

    /** Lines 764-800. */
    method Raise(ledger: AuditLedger.AuditLedger, field: string, epoch: string, generation: Option<string>,
                 recorded: string, observed: string)
      modifies this, ledger, ledger.disk
      ensures With(ledger) == LedgerObserver.Raise(old(With(ledger)), field, epoch, generation, recorded, observed)
      ensures absent == old(absent) && decisions == old(decisions) && contracts == old(contracts)
      ensures ledger.env.Lawful() && old(ledger.Faithful()) ==> ledger.Faithful()
      ensures ledger.origin == old(ledger.origin)
    {
      var key := Alarm(field, epoch, if generation.Some? then generation.value else "", observed);
      if key in alarms {
        return;
      }
      alarms := alarms + {key};
      var record := AlarmRecord(field, epoch, generation, recorded, observed);
      var _ := ledger.Append(record.kind, record.payload);
    }

    /** Lines 631-660, one generation. */
    method Observe(ledger: AuditLedger.AuditLedger, g: Generation) returns (recorded: nat)
      modifies this, ledger, ledger.disk
      ensures |decisions| == |old(decisions)| + recorded
      ensures With(ledger) == SeeGeneration(old(With(ledger)), g)
      ensures absent == old(absent)
      ensures ledger.env.Lawful() && old(ledger.Faithful()) ==> ledger.Faithful()
      ensures ledger.origin == old(ledger.origin)
    {
      recorded := 0;
      if g.promoted.None? {
        return;
      }
      var promoted := g.promoted.value;
      if g.key !in decisions {
        decisions := decisions[g.key := promoted];
        var record := DecisionRecord(g.key, promoted);
        var _ := ledger.Append(record.kind, record.payload);
        recorded := 1;
      } else if decisions[g.key] != promoted {
        Raise(ledger, DECISION, g.key.epoch, Some(g.key.generation), Label(decisions[g.key]), Label(promoted));
      }
    }

    /** Lines 702-720. */
    method RaiseAbsences(ledger: AuditLedger.AuditLedger, field: string, missing: seq<Missing>)
      modifies this, ledger, ledger.disk
      ensures With(ledger) == Absences(old(With(ledger)), field, missing)
      ensures decisions == old(decisions)
      ensures ledger.env.Lawful() && old(ledger.Faithful()) ==> ledger.Faithful()
      ensures ledger.origin == old(ledger.origin)
    {
      var now: set<Absence> := {};
      ghost var start := With(ledger);
      for n := 0 to |missing|
        invariant With(ledger) == RaiseAbsent(start, field, absent, missing[..n])
        invariant absent == old(absent) && decisions == old(decisions)
        invariant now == Now(field, missing[..n])
        invariant ledger.env.Lawful() && old(ledger.Faithful()) ==> ledger.Faithful()
        invariant ledger.origin == old(ledger.origin)
      {
        var m := missing[n];
        RaiseAbsentStep(start, field, absent, missing, n);
        NowStep(field, missing, n);
        if m.Key(field) in absent {
          Raise(ledger, field, m.epoch, m.generation, m.recorded, ABSENT);
        }
        now := now + {m.Key(field)};
      }
      assert missing[..|missing|] == missing;
      absent := (set a <- absent | a.field != field) + now;
    }

    /** Lines 625-672; `order` is the order the unresolved keys came in. */
    method ObserveDecisions(ledger: AuditLedger.AuditLedger, gs: seq<Generation>)
      returns (recorded: nat, ghost order: seq<GenKey>)
      modifies this, ledger, ledger.disk
      ensures |decisions| == |old(decisions)| + recorded
      ensures Lists(order, SeeAll(old(With(ledger)), gs).view.decisions.Keys - Resolved(gs))
      ensures With(ledger) == DecisionsStep(old(With(ledger)), gs, order)
      ensures forall n :: Sound(old(With(ledger)), n) ==> Sound(With(ledger), n)
      ensures ledger.env.Lawful() && old(ledger.Faithful()) ==> ledger.Faithful()
      ensures ledger.origin == old(ledger.origin)
    {
      var resolved: set<GenKey>;
      recorded, resolved := ObserveEach(ledger, gs);
      var keys := Enumerate(decisions.Keys - resolved);
      order := keys;
      RaiseAbsences(ledger, DECISION, MissingOf(Memory(), keys));
      forall n | Sound(old(With(ledger)), n) ensures Sound(With(ledger), n) {
        DecisionsSound(old(With(ledger)), gs, order, n);
      }
    }

    /** Its loop over the generations. */
    method ObserveEach(ledger: AuditLedger.AuditLedger, gs: seq<Generation>)
      returns (recorded: nat, resolved: set<GenKey>)
      modifies this, ledger, ledger.disk
      ensures |decisions| == |old(decisions)| + recorded
      ensures With(ledger) == SeeAll(old(With(ledger)), gs) && resolved == Resolved(gs)
      ensures ledger.env.Lawful() && old(ledger.Faithful()) ==> ledger.Faithful()
      ensures ledger.origin == old(ledger.origin)
    {
      recorded, resolved := 0, {};
      for n := 0 to |gs|
        invariant |decisions| == |old(decisions)| + recorded
        invariant With(ledger) == SeeAll(old(With(ledger)), gs[..n])
        invariant resolved == Resolved(gs[..n])
        invariant ledger.env.Lawful() && old(ledger.Faithful()) ==> ledger.Faithful()
        invariant ledger.origin == old(ledger.origin)
      {
        SeeAllStep(old(With(ledger)), gs, n);
        ResolvedStep(gs, n);
        var added := Observe(ledger, gs[n]);
        recorded := recorded + added;
        if gs[n].promoted.Some? {
          resolved := resolved + {gs[n].key};
        }
      }
      assert gs[..|gs|] == gs;
    }

    /** Lines 726-761. */
    method ObserveContract(ledger: AuditLedger.AuditLedger, epoch: string, hash: string) returns (recorded: bool)
      modifies this, ledger, ledger.disk
      ensures With(ledger) == SeeContract(old(With(ledger)), epoch, hash)
      ensures recorded <==> hash != "" && epoch !in old(contracts)
      ensures absent == old(absent)
      ensures ledger.env.Lawful() && old(ledger.Faithful()) ==> ledger.Faithful()
      ensures ledger.origin == old(ledger.origin)
    {
      recorded := false;
      if hash == "" {
        return;
      }
      if epoch in contracts {
        if contracts[epoch] != hash {
          Raise(ledger, CONTRACT, epoch, None, contracts[epoch], hash);
        }
      } else {
        contracts := contracts[epoch := hash];
        var record := ContractRecord(epoch, hash);
        var _ := ledger.Append(record.kind, record.payload);
        recorded := true;
      }
    }

    /** Lines 678-696. */
    method ObserveContracts(ledger: AuditLedger.AuditLedger, epochs: seq<EpochHash>)
      modifies this, ledger, ledger.disk
      ensures With(ledger) == ContractsStep(old(With(ledger)), epochs)
      ensures forall n :: Sound(old(With(ledger)), n) ==> Sound(With(ledger), n)
      ensures ledger.env.Lawful() && old(ledger.Faithful()) ==> ledger.Faithful()
      ensures ledger.origin == old(ledger.origin)
    {
      var missing: seq<Missing> := [];
      ghost var start := With(ledger);
      for n := 0 to |epochs|
        invariant With(ledger) == SeeEpochs(start, epochs[..n])
        invariant missing == MissingEpochs(start, epochs[..n])
        invariant ledger.env.Lawful() && old(ledger.Faithful()) ==> ledger.Faithful()
        invariant ledger.origin == old(ledger.origin)
      {
        var e := epochs[n];
        assert epochs[..n + 1][..n] == epochs[..n];
        if e.Stated() {
          var _ := ObserveContract(ledger, e.epoch, e.hash.value);
        } else if e.epoch in contracts {
          missing := missing + [Missing(e.epoch, None, contracts[e.epoch])];
        }
      }
      assert epochs[..|epochs|] == epochs;
      RaiseAbsences(ledger, CONTRACT, missing);
      forall n | Sound(old(With(ledger)), n) ensures Sound(With(ledger), n) {
        ContractsSound(old(With(ledger)), epochs, n);
      }
    }
  }

  // ---- a whole session ----------------------------------------------------

  /** What one process does with its ledger, in any order. */
  datatype Call =
    | Decisions(gs: seq<Generation>)
    | Contracts(epochs: seq<EpochHash>)
    | Other(kind: Kind, payload: Json)
    | Tick(io: Io)

  lemma ForeignSound(s: Sys, r: Record, n: nat)
    requires Sound(s, n) && Foreign(r)
    ensures Sound(Sys(s.view, s.log + [r]), n)
  {
    Emit(s, r, s.view, n);
  }

  predicate OwnKinds(calls: seq<Call>) {
    forall i :: 0 <= i < |calls| && calls[i].Other? ==> !AuditLedger.Replayed(calls[i].kind)
  }

  lemma NewsPrefix(rs: seq<Record>, more: seq<Record>, n: nat)
    requires NewsSince(rs + more, n)
    ensures NewsSince(rs, n)
  {
    var all := rs + more;
    forall i | n <= i < |rs| ensures NewsAt(rs, i) {
      assert NewsAt(all, i) && all[..i] == rs[..i];
    }
  }

  /** An append of another part repeats nothing, however it ends. */
  lemma AppendNews(env: Env, st: Ledger, kind: Kind, payload: Json, io: Io, n: nat)
    requires env.Lawful() && env.codec.valid(st.prev) && !AuditLedger.Replayed(kind)
    requires NewsSince(History(env, st.Bytes()), n)
    ensures var after := AppendStep(env, st, kind, payload, io);
            env.codec.valid(after.prev) && NewsSince(History(env, after.Bytes()), n)
  {
    AppendHistory(env, st, kind, payload, io);
    NewsOneMore(History(env, st.Bytes()), Record(kind, payload), n);
  }

  lemma CheckNews(env: Env, st: Ledger, io: Io, n: nat)
    requires env.Lawful() && env.codec.valid(st.prev) && NewsSince(History(env, st.Bytes()), n)
    ensures NewsSince(History(env, CheckStep(env, st, io).Bytes()), n)
  {
    var found := FirstBreak(env, st);
    if found.Some? && found !in st.breaks {
      AppendNews(env, st.(breaks := st.breaks + {found}), LedgerIntegrity, BreakPayload(found.value), io, n);
    }
  }

  /** Opening a file adds nothing that repeats. */
  lemma OpenNews(env: Env, file: Option<Text>, io: OpenIo, n: nat)
    requires env.Lawful() && NewsSince(History(env, BytesOf(file)), n)
    ensures NewsSince(History(env, OpenStep(env, file, io).Bytes()), n)
  {
    var loaded, removed := Loaded(env, file, io.truncates), Removed(env, file, io.truncates);
    LedgerStanding.LoadedIs(env, file, io.truncates);
    NewsPrefix(History(env, loaded.Bytes()), LedgerStanding.Taken(env, file, io.truncates), n);
    if removed == [] {
      CheckNews(env, loaded, io.check, n);
    } else {
      AppendNews(env, loaded, LedgerIntegrity, TornPayload(env.hash, removed), io.repair, n);
      CheckNews(env, AppendStep(env, loaded, LedgerIntegrity, TornPayload(env.hash, removed), io.repair), io.check, n);
    }
  }

  /** One call of a session. */
  method Perform(call: Call, ledger: AuditLedger.AuditLedger, observer: TransitionObserver, ghost since: nat)
    requires ledger.env.Lawful() && ledger.Faithful() && Sound(observer.With(ledger), since)
    requires call.Other? ==> !AuditLedger.Replayed(call.kind)
    modifies ledger, ledger.disk, observer
    ensures ledger.Faithful() && Sound(observer.With(ledger), since)
    ensures ledger.origin == old(ledger.origin)
  {
    ghost var before := observer.With(ledger);
    match call
    case Decisions(gs) => var _, _ := observer.ObserveDecisions(ledger, gs);
    case Contracts(epochs) => observer.ObserveContracts(ledger, epochs);
    case Other(kind, payload) =>
      var _ := ledger.Append(kind, payload);
      ForeignSound(before, Record(kind, payload), since);
    case Tick(tick) =>
      var found := ledger.CheckWith(tick);
      if found.Some? {
        ForeignSound(before, Record(LedgerIntegrity, BreakPayload(found.value)), since);
      }
  }

  /** The ledger's trail is what happened to the file since it was opened, and the
      observer's memory is what `LedgerHistory::load` would rebuild from the file
      unless an append in that trail lost a decision, a contract hash or an alarm. */
  ghost predicate Remembers(ledger: AuditLedger.AuditLedger, observer: TransitionObserver)
    reads ledger, ledger.disk, observer
  {
    ledger.Recounts() && (!ledger.Lost() ==> InSync(Sys(observer.Memory(), ledger.Log())))
  }

  /** From any file, after opening it, loading the observer and any calls: the
      observer remembers what the file replays to unless a record was lost. Lost
      or not, if nothing from record `since` on repeats in the file, nothing does
      afterwards. */
  method Session(env: Env, disk: AuditLedger.LedgerDisk, ios: nat -> Io, io: OpenIo, calls: seq<Call>, ghost since: nat)
    returns (ledger: AuditLedger.AuditLedger, observer: TransitionObserver)
    requires env.Lawful() && OwnKinds(calls) && NewsSince(AuditLedger.Replays(env, disk.content), since)
    modifies disk
    ensures ledger.disk == disk && ledger.env == env && ledger.ios == ios
    ensures ledger.origin == OpenStep(env, old(disk.content), io)
    ensures Remembers(ledger, observer)
    ensures NewsSince(AuditLedger.Replays(env, disk.content), since)
  {
    OpenNews(env, disk.content, io, since);
    ledger := new AuditLedger.AuditLedger.Open(env, disk, ios, io);
    observer := new TransitionObserver.FromLedger(ledger);
    for i := 0 to |calls|
      invariant fresh(ledger) && fresh(observer) && ledger.disk == disk && ledger.env == env && ledger.ios == ios
      invariant ledger.Faithful() && Sound(observer.With(ledger), since)
      invariant ledger.origin == OpenStep(env, old(disk.content), io)
    {
      Perform(calls[i], ledger, observer, since);
    }
    ThinnedNews(ledger.Log(), ledger.Sent(), since);
  }

  /** With every write succeeding and room in the file for one more line, the
      memory is what the file replays to. */
  lemma SmoothRemembers(ledger: AuditLedger.AuditLedger, observer: TransitionObserver, longest: nat)
    requires ledger.env.PlainSeals() && Remembers(ledger, observer)
    requires AuditLedger.Smooth(ledger.env, ledger.ios, ledger.appends, ledger.origin, ledger.Sent(), longest)
    requires |BytesOf(ledger.disk.content)| + longest + 2 <= MAX_FILE
    ensures InSync(Sys(observer.Memory(), ledger.Log()))
  {
    AuditLedger.NothingLost(ledger.env, ledger.ios, ledger.origin, ledger.trail, ledger.State(), ledger.appends,
                            longest);
  }

  /** One process: how its writes end and what it does. */
  datatype Process = Process(ios: nat -> Io, open: OpenIo, calls: seq<Call>)

  /** Any number of processes one after another on one file: none of the records
      they add repeats a decision, a contract hash or an alarm before it, whatever
      they lose, and the last one's memory is the replay of the file unless that
      process lost a record. */
  method Sessions(env: Env, disk: AuditLedger.LedgerDisk, processes: seq<Process>)
    returns (ledger: AuditLedger.AuditLedger, observer: TransitionObserver)
    requires env.Lawful() && processes != [] && forall i :: 0 <= i < |processes| ==> OwnKinds(processes[i].calls)
    modifies disk
    ensures ledger.disk == disk && ledger.env == env
    ensures NewsSince(ledger.Log(), |AuditLedger.Replays(env, old(disk.content))|)
    ensures ledger.ios == processes[|processes| - 1].ios && Remembers(ledger, observer)
  {
    ghost var since := |AuditLedger.Replays(env, disk.content)|;
    var last := |processes| - 1;
    RunEarlier(env, disk, processes[..last], since);
    ledger, observer := Session(env, disk, processes[last].ios, processes[last].open, processes[last].calls, since);
  }

  method RunEarlier(env: Env, disk: AuditLedger.LedgerDisk, processes: seq<Process>, ghost since: nat)
    requires env.Lawful() && NewsSince(AuditLedger.Replays(env, disk.content), since)
    requires forall i :: 0 <= i < |processes| ==> OwnKinds(processes[i].calls)
    modifies disk
    ensures NewsSince(AuditLedger.Replays(env, disk.content), since)
  {
    for n := 0 to |processes|
      invariant NewsSince(AuditLedger.Replays(env, disk.content), since)
    {
      var _, _ := Session(env, disk, processes[n].ios, processes[n].open, processes[n].calls, since);
    }
  }

  lemma NowStep(field: string, ms: seq<Missing>, n: nat)
    requires n < |ms|
    ensures Now(field, ms[..n + 1]) == Now(field, ms[..n]) + {ms[n].Key(field)}
  {
    assert ms[..n + 1] == ms[..n] + [ms[n]];
  }

  lemma SeeAllStep(s: Sys, gs: seq<Generation>, n: nat)
    requires n < |gs|
    ensures SeeAll(s, gs[..n + 1]) == SeeGeneration(SeeAll(s, gs[..n]), gs[n])
  {
    assert gs[..n + 1][..n] == gs[..n];
  }

  lemma RaiseAbsentStep(s: Sys, field: string, was: set<Absence>, ms: seq<Missing>, n: nat)
    requires n < |ms|
    ensures var before := RaiseAbsent(s, field, was, ms[..n]);
            RaiseAbsent(s, field, was, ms[..n + 1]) ==
            if ms[n].Key(field) in was
            then LedgerObserver.Raise(before, field, ms[n].epoch, ms[n].generation, ms[n].recorded, ABSENT)
            else before
  {
    assert ms[..n + 1][..n] == ms[..n];
  }

  lemma ResolvedStep(gs: seq<Generation>, n: nat)
    requires n < |gs|
    ensures Resolved(gs[..n + 1]) == Resolved(gs[..n]) + if gs[n].promoted.Some? then {gs[n].key} else {}
  {
    assert gs[..n + 1] == gs[..n] + [gs[n]];
  }
}
