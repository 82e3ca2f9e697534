/** When an alarm on a rewritten value exists, and what its record says: the first
    stated value is the reference, and every other stated value is alarmed. */
module LedgerRewrite {
  import opened Common
  import opened LedgerFormat
  import opened LedgerObserver
  import LedgerAbsence

  // ---- what a run states --------------------------------------------------

  /** Everything the run's `observe_decisions` calls state, in order. */
  function Statements(es: seq<Event>): seq<Generation> {
    if es == [] then []
    else Statements(es[..|es| - 1]) + if es[|es| - 1].Decisions? then es[|es| - 1].gs else []
  }

  /** Everything its `observe_contracts` calls state. */
  function Hashes(es: seq<Event>): seq<EpochHash> {
    if es == [] then []
    else Hashes(es[..|es| - 1]) + if es[|es| - 1].Contracts? then es[|es| - 1].es else []
  }

  /** The decision first stated for a generation. */
  function FirstStated(gs: seq<Generation>, k: GenKey): Option<bool> {
    if gs == [] then None
    else if gs[0].key == k && gs[0].promoted.Some? then gs[0].promoted
    else FirstStated(gs[1..], k)
  }

  /** The hash first stated for an epoch; an empty text states none. */
  function FirstHash(es: seq<EpochHash>, epoch: string): Option<string> {
    if es == [] then None
    else if es[0].epoch == epoch && es[0].Stated() then es[0].hash
    else FirstHash(es[1..], epoch)
  }

  /** What a stated decision is compared with: the recorded one, else the first. */
  function Reference(v: View, gs: seq<Generation>, k: GenKey): Option<bool> {
    if k in v.decisions then Some(v.decisions[k]) else FirstStated(gs, k)
  }

  function HashReference(v: View, es: seq<EpochHash>, epoch: string): Option<string> {
    if epoch in v.contracts then Some(v.contracts[epoch]) else FirstHash(es, epoch)
  }

  /** The alarm is for a stated decision that is not the reference. */
  ghost predicate DecisionRewritten(v: View, gs: seq<Generation>, a: Alarm) {
    var k := GenKey(a.epoch, a.generation);
    a.field == DECISION && exists p: bool ::
      Generation(k, Some(p)) in gs && a.observed == Label(p) && Reference(v, gs, k) == Some(!p)
  }

  /** The alarm is for a stated hash that is not the reference. */
  ghost predicate HashRewritten(v: View, es: seq<EpochHash>, a: Alarm) {
    && a.field == CONTRACT && a.generation == "" && a.observed != ""
    && EpochHash(a.epoch, Some(a.observed)) in es && HashReference(v, es, a.epoch) != Some(a.observed)
  }

  lemma {:induction false} FirstStatedJoin(gs: seq<Generation>, more: seq<Generation>, k: GenKey)
    ensures FirstStated(gs + more, k) == if FirstStated(gs, k).Some? then FirstStated(gs, k) else FirstStated(more, k)
  {
    if gs == [] {
      assert gs + more == more;
    } else {
      assert (gs + more)[1..] == gs[1..] + more;
      FirstStatedJoin(gs[1..], more, k);
    }
  }

  lemma {:induction false} FirstHashJoin(es: seq<EpochHash>, more: seq<EpochHash>, epoch: string)
    ensures FirstHash(es + more, epoch) == if FirstHash(es, epoch).Some? then FirstHash(es, epoch)
                                           else FirstHash(more, epoch)
  {
    if es == [] {
      assert es + more == more;
    } else {
      assert (es + more)[1..] == es[1..] + more;
      FirstHashJoin(es[1..], more, epoch);
    }
  }

  lemma {:induction false} StatedHasFirst(gs: seq<Generation>, k: GenKey, p: bool)
    requires Generation(k, Some(p)) in gs
    ensures FirstStated(gs, k).Some?
  {
    if gs[0] != Generation(k, Some(p)) {
      StatedHasFirst(gs[1..], k, p);
    }
  }

  lemma {:induction false} StatedHasFirstHash(es: seq<EpochHash>, epoch: string, hash: string)
    requires EpochHash(epoch, Some(hash)) in es && hash != ""
    ensures FirstHash(es, epoch).Some?
  {
    if es[0] != EpochHash(epoch, Some(hash)) {
      StatedHasFirstHash(es[1..], epoch, hash);
    }
  }

  // ---- one statement ------------------------------------------------------

  /** The view w holds the reference of generation k after v and the statements. */
  ghost predicate Refers(v: View, w: View, gs: seq<Generation>, k: GenKey) {
    Reference(v, gs, k) == if k in w.decisions then Some(w.decisions[k]) else None
  }

  ghost predicate HashRefers(v: View, w: View, es: seq<EpochHash>, epoch: string) {
    HashReference(v, es, epoch) == if epoch in w.contracts then Some(w.contracts[epoch]) else None
  }

  /** What statements `gs` and `es` made of view v, as far as alarm a goes. */
  ghost predicate Follows(v: View, w: View, gs: seq<Generation>, es: seq<EpochHash>, a: Alarm) {
    && Refers(v, w, gs, GenKey(a.epoch, a.generation)) && HashRefers(v, w, es, a.epoch)
    && (a in w.alarms <==> a in v.alarms || DecisionRewritten(v, gs, a) || HashRewritten(v, es, a))
  }

  lemma RewrittenMore(v: View, gs: seq<Generation>, g: Generation, a: Alarm)
    ensures var k := GenKey(a.epoch, a.generation);
            DecisionRewritten(v, gs + [g], a) <==>
              || DecisionRewritten(v, gs, a)
              || (&& a.field == DECISION && g.key == k && g.promoted.Some? && a.observed == Label(g.promoted.value)
                  && Reference(v, gs, k) == Some(!g.promoted.value))
  {
    var k := GenKey(a.epoch, a.generation);
    var all := gs + [g];
    FirstStatedJoin(gs, [g], k);
    KeysDiffer();
    assert [g][1..] == [];
    forall p: bool
      ensures Generation(k, Some(p)) in all <==> Generation(k, Some(p)) in gs || g == Generation(k, Some(p))
    {
    }
    forall p: bool | Generation(k, Some(p)) in gs ensures FirstStated(gs, k).Some? {
      StatedHasFirst(gs, k, p);
    }
  }

  lemma HashRewrittenMore(v: View, es: seq<EpochHash>, e: EpochHash, a: Alarm)
    ensures HashRewritten(v, es + [e], a) <==>
              || HashRewritten(v, es, a)
              || (&& a.field == CONTRACT && a.generation == "" && e.epoch == a.epoch && e.Stated()
                  && a.observed == e.hash.value && HashReference(v, es, a.epoch).Some?
                  && HashReference(v, es, a.epoch) != e.hash)
  {
    FirstHashJoin(es, [e], a.epoch);
    assert [e][1..] == [];
    if a.observed != "" && EpochHash(a.epoch, Some(a.observed)) in es {
      StatedHasFirstHash(es, a.epoch, a.observed);
    }
  }

  lemma GenerationRefers(v: View, s: Sys, gs: seq<Generation>, g: Generation, k: GenKey)
    requires Refers(v, s.view, gs, k)
    ensures Refers(v, SeeGeneration(s, g).view, gs + [g], k)
  {
    FirstStatedJoin(gs, [g], k);
    assert [g][1..] == [];
  }

  lemma EpochRefers(v: View, s: Sys, es: seq<EpochHash>, e: EpochHash, epoch: string)
    requires HashRefers(v, s.view, es, epoch)
    ensures HashRefers(v, SeeEpoch(s, e).view, es + [e], epoch)
  {
    FirstHashJoin(es, [e], epoch);
    assert [e][1..] == [];
  }

  /** One generation: an alarm comes exactly from a value against the recorded one. */
  lemma GenerationAlarms(s: Sys, g: Generation, a: Alarm)
    ensures var k := GenKey(a.epoch, a.generation);
            a in SeeGeneration(s, g).view.alarms <==>
              || a in s.view.alarms
              || (&& a.field == DECISION && g.key == k && g.promoted.Some? && a.observed == Label(g.promoted.value)
                  && k in s.view.decisions && s.view.decisions[k] == !g.promoted.value)
    ensures SeeGeneration(s, g).view.contracts == s.view.contracts
  {
  }

  lemma EpochAlarms(s: Sys, e: EpochHash, a: Alarm)
    ensures a in SeeEpoch(s, e).view.alarms <==>
              || a in s.view.alarms
              || (&& a.field == CONTRACT && a.generation == "" && e.epoch == a.epoch && e.Stated()
                  && a.observed == e.hash.value && a.epoch in s.view.contracts
                  && s.view.contracts[a.epoch] != e.hash.value)
    ensures SeeEpoch(s, e).view.decisions == s.view.decisions
  {
  }

  lemma GenerationFollows(v: View, s: Sys, gs: seq<Generation>, es: seq<EpochHash>, g: Generation, a: Alarm)
    requires Follows(v, s.view, gs, es, a)
    ensures Follows(v, SeeGeneration(s, g).view, gs + [g], es, a)
  {
    RewrittenMore(v, gs, g, a);
    GenerationRefers(v, s, gs, g, GenKey(a.epoch, a.generation));
    GenerationAlarms(s, g, a);
  }

  lemma EpochFollows(v: View, s: Sys, gs: seq<Generation>, es: seq<EpochHash>, e: EpochHash, a: Alarm)
    requires Follows(v, s.view, gs, es, a)
    ensures Follows(v, SeeEpoch(s, e).view, gs, es + [e], a)
  {
    HashRewrittenMore(v, es, e, a);
    EpochRefers(v, s, es, e, a.epoch);
    EpochAlarms(s, e, a);
  }

  // ---- one call -----------------------------------------------------------

  lemma {:induction false} SeeAllFollows(v: View, s: Sys, gs: seq<Generation>, es: seq<EpochHash>,
                                         more: seq<Generation>, a: Alarm)
    requires Follows(v, s.view, gs, es, a)
    ensures Follows(v, SeeAll(s, more).view, gs + more, es, a)
  {
    if more == [] {
      assert gs + more == gs;
    } else {
      var init, g := more[..|more| - 1], more[|more| - 1];
      SeeAllFollows(v, s, gs, es, init, a);
      GenerationFollows(v, SeeAll(s, init), gs + init, es, g, a);
      assert gs + more == gs + init + [g];
    }
  }

  lemma {:induction false} SeeEpochsFollows(v: View, s: Sys, gs: seq<Generation>, es: seq<EpochHash>,
                                            more: seq<EpochHash>, a: Alarm)
    requires Follows(v, s.view, gs, es, a)
    ensures Follows(v, SeeEpochs(s, more).view, gs, es + more, a)
  {
    if more == [] {
      assert es + more == es;
    } else {
      var init, e := more[..|more| - 1], more[|more| - 1];
      SeeEpochsFollows(v, s, gs, es, init, a);
      EpochFollows(v, SeeEpochs(s, init), gs, es + init, e, a);
      assert es + more == es + init + [e];
    }
  }

  /** Absences raise no alarm on a stated value. */
  lemma {:induction false} RaiseAbsentLeaves(s: Sys, field: string, was: set<Absence>, ms: seq<Missing>, a: Alarm)
    requires a.observed != ABSENT
    ensures var t := RaiseAbsent(s, field, was, ms);
            && t.view.decisions == s.view.decisions && t.view.contracts == s.view.contracts
            && (a in t.view.alarms <==> a in s.view.alarms)
  {
    if ms != [] {
      RaiseAbsentLeaves(s, field, was, ms[..|ms| - 1], a);
    }
  }

  /** One call of either kind: an alarm on a stated value is there afterwards if and
      only if it was there before or the call states that value against the
      reference. */
  lemma StepFollows(v: View, s: Sys, gs: seq<Generation>, es: seq<EpochHash>, e: Event, a: Alarm)
    requires a.observed != ABSENT && Follows(v, s.view, gs, es, a) && (e.Restart? ==> InSync(s))
    ensures Follows(v, Step(s, e).view, gs + if e.Decisions? then e.gs else [],
                    es + if e.Contracts? then e.es else [], a)
  {
    assert gs + [] == gs && es + [] == es;
    match e
    case Decisions(more, order) =>
      SeeAllFollows(v, s, gs, es, more, a);
      var seen := SeeAll(s, more);
      RaiseAbsentLeaves(seen, DECISION, seen.view.absent, MissingOf(seen.view, order), a);
    case Contracts(more) =>
      SeeEpochsFollows(v, s, gs, es, more, a);
      var seen := SeeEpochs(s, more);
      RaiseAbsentLeaves(seen, CONTRACT, seen.view.absent, MissingEpochs(s, more), a);
    case Other(_) =>
    case Restart =>
  }

  // ---- whole runs ---------------------------------------------------------

  /** Over any run from a loaded ledger, restarts included: the reference of a
      generation is the recorded decision or else the first one stated, that of an
      epoch likewise; and an alarm with a value other than "absent" exists if and
      only if it was loaded or the run states that value against the reference. */
  lemma {:induction false} RewriteAlarmIff(s: Sys, es: seq<Event>, a: Alarm)
    requires InSync(s) && a.observed != ABSENT
    ensures Follows(s.view, Run(s, es).view, Statements(es), Hashes(es), a)
  {
    if es != [] {
      var init := es[..|es| - 1];
      RewriteAlarmIff(s, init, a);
      MemoryEqualsReplay(s, init);
      StepFollows(s.view, Run(s, init), Statements(init), Hashes(init), es[|es| - 1], a);
    }
  }

  /** A generation recorded otherwise: the alarm on a decision exists if and only if
      it was loaded or some call of the run states that decision. */
  lemma RewrittenDecisionAlarmed(s: Sys, es: seq<Event>, k: GenKey, p: bool)
    requires InSync(s) && k in s.view.decisions && s.view.decisions[k] != p
    ensures var a := Alarm(DECISION, k.epoch, k.generation, Label(p));
            a in Run(s, es).view.alarms <==> a in s.view.alarms || Generation(k, Some(p)) in Statements(es)
  {
    KeysDiffer();
    RewriteAlarmIff(s, es, Alarm(DECISION, k.epoch, k.generation, Label(p)));
  }

  /** An epoch recorded otherwise: the same for any hash, "absent" aside. */
  lemma RewrittenHashAlarmed(s: Sys, es: seq<Event>, epoch: string, hash: string)
    requires InSync(s) && epoch in s.view.contracts && s.view.contracts[epoch] != hash && hash != "" && hash != ABSENT
    ensures var a := Alarm(CONTRACT, epoch, "", hash);
            a in Run(s, es).view.alarms <==> a in s.view.alarms || EpochHash(epoch, Some(hash)) in Hashes(es)
  {
    KeysDiffer();
    RewriteAlarmIff(s, es, Alarm(CONTRACT, epoch, "", hash));
  }

  /** The same for one `observe_decisions` call. */
  lemma DecisionsAlarmIff(s: Sys, gs: seq<Generation>, order: seq<GenKey>, k: GenKey, p: bool)
    requires k in s.view.decisions && s.view.decisions[k] != p
    ensures var a := Alarm(DECISION, k.epoch, k.generation, Label(p));
            a in DecisionsStep(s, gs, order).view.alarms <==> a in s.view.alarms || Generation(k, Some(p)) in gs
  {
    KeysDiffer();
    StepFollows(s.view, s, [], [], Decisions(gs, order), Alarm(DECISION, k.epoch, k.generation, Label(p)));
    assert [] + gs == gs;
  }

  /** And for one `observe_contracts` call. */
  lemma ContractsAlarmIff(s: Sys, es: seq<EpochHash>, epoch: string, hash: string)
    requires epoch in s.view.contracts && s.view.contracts[epoch] != hash && hash != "" && hash != ABSENT
    ensures var a := Alarm(CONTRACT, epoch, "", hash);
            a in ContractsStep(s, es).view.alarms <==> a in s.view.alarms || EpochHash(epoch, Some(hash)) in es
  {
    KeysDiffer();
    StepFollows(s.view, s, [], [], Contracts(es), Alarm(CONTRACT, epoch, "", hash));
    assert [] + es == es;
  }

  // ---- no other alarms ----------------------------------------------------

  ghost predicate OfNoKind(a: Alarm) {
    a.field != DECISION && (a.field != CONTRACT || a.generation != "")
  }

  lemma {:induction false} SeenNoOther(s: Sys, gs: seq<Generation>, a: Alarm)
    requires OfNoKind(a)
    ensures a in SeeAll(s, gs).view.alarms <==> a in s.view.alarms
  {
    if gs != [] {
      SeenNoOther(s, gs[..|gs| - 1], a);
      GenerationAlarms(SeeAll(s, gs[..|gs| - 1]), gs[|gs| - 1], a);
    }
  }

  lemma {:induction false} StatedNoOther(s: Sys, es: seq<EpochHash>, a: Alarm)
    requires OfNoKind(a)
    ensures a in SeeEpochs(s, es).view.alarms <==> a in s.view.alarms
    ensures forall i :: 0 <= i < |MissingEpochs(s, es)| ==> MissingEpochs(s, es)[i].generation == None
  {
    if es != [] {
      StatedNoOther(s, es[..|es| - 1], a);
      EpochAlarms(SeeEpochs(s, es[..|es| - 1]), es[|es| - 1], a);
    }
  }

  lemma {:induction false} AbsentNoOther(s: Sys, field: string, was: set<Absence>, ms: seq<Missing>, a: Alarm)
    requires OfNoKind(a) && (field == DECISION || field == CONTRACT)
    requires field == CONTRACT ==> forall i :: 0 <= i < |ms| ==> ms[i].generation == None
    ensures a in RaiseAbsent(s, field, was, ms).view.alarms <==> a in s.view.alarms
  {
    if ms != [] {
      AbsentNoOther(s, field, was, ms[..|ms| - 1], a);
    }
  }

  /** Only decisions and epochs' hashes are ever alarmed. */
  lemma {:induction false} OtherAlarmsLoaded(s: Sys, es: seq<Event>, a: Alarm)
    requires InSync(s) && OfNoKind(a)
    ensures a in Run(s, es).view.alarms <==> a in s.view.alarms
  {
    if es != [] {
      var init := es[..|es| - 1];
      var before := Run(s, init);
      OtherAlarmsLoaded(s, init, a);
      MemoryEqualsReplay(s, init);
      match es[|es| - 1]
      case Decisions(gs, order) =>
        var seen := SeeAll(before, gs);
        SeenNoOther(before, gs, a);
        AbsentNoOther(seen, DECISION, seen.view.absent, MissingOf(seen.view, order), a);
      case Contracts(hs) =>
        var seen := SeeEpochs(before, hs);
        StatedNoOther(before, hs, a);
        AbsentNoOther(seen, CONTRACT, seen.view.absent, MissingEpochs(before, hs), a);
      case Other(_) =>
      case Restart =>
    }
  }

  // ---- what the records say -----------------------------------------------

  /** The record states the reference of the view it belongs to. */
  ghost predicate Told(v: View, r: Record) {
    var epoch, observed, recorded := TextAt(r, EPOCH), TextAt(r, OBSERVED), TextAt(r, RECORDED);
    match r.kind
    case DecisionObserved => KeyOf(r) in v.decisions && TextAt(r, DECISION) == Label(v.decisions[KeyOf(r)])
    case ContractChange => epoch in v.contracts && TextAt(r, CONTRACT) == v.contracts[epoch]
    case HistoryChanged =>
      && (observed != recorded || observed == ABSENT)
      && if TextAt(r, FIELD) == DECISION then KeyOf(r) in v.decisions && recorded == Label(v.decisions[KeyOf(r)])
         else && TextAt(r, FIELD) == CONTRACT && r.payload.Get(GENERATION) == Some(One(Null))
              && epoch in v.contracts && recorded == v.contracts[epoch]
    case _ => true
  }

  ghost predicate ToldSince(s: Sys, n: nat) {
    forall i :: n <= i < |s.log| ==> Told(s.view, s.log[i])
  }

  lemma ToldStays(v: View, w: View, r: Record)
    requires Told(v, r) && Extends(v, w)
    ensures Told(w, r)
  {
  }

  lemma ToldMore(s: Sys, t: Sys, r: Record, n: nat)
    requires ToldSince(s, n) && Extends(s.view, t.view) && t.log == s.log + [r] && Told(t.view, r)
    ensures ToldSince(t, n)
  {
    forall i | n <= i < |s.log| ensures Told(t.view, t.log[i]) {
      ToldStays(s.view, t.view, s.log[i]);
    }
  }

  lemma ReadFields(field: string, epoch: string, generation: Option<string>, recorded: string, observed: string)
    ensures var r := AlarmRecord(field, epoch, generation, recorded, observed);
            && TextAt(r, FIELD) == field && TextAt(r, EPOCH) == epoch && TextAt(r, RECORDED) == recorded
            && TextAt(r, OBSERVED) == observed
            && r.payload.Get(GENERATION) == Some(One(if generation.Some? then Str(generation.value) else Null))
  {
    KeysDiffer();
  }

  lemma RaiseTold(s: Sys, field: string, epoch: string, generation: Option<string>, recorded: string,
                  observed: string, n: nat)
    requires ToldSince(s, n) && Told(s.view, AlarmRecord(field, epoch, generation, recorded, observed))
    ensures ToldSince(Raise(s, field, epoch, generation, recorded, observed), n)
    ensures Extends(s.view, Raise(s, field, epoch, generation, recorded, observed).view)
  {
    var t := Raise(s, field, epoch, generation, recorded, observed);
    if t != s {
      ToldStays(s.view, t.view, AlarmRecord(field, epoch, generation, recorded, observed));
      ToldMore(s, t, AlarmRecord(field, epoch, generation, recorded, observed), n);
    }
  }

  lemma DecisionTold(v: View, k: GenKey, observed: string)
    requires k in v.decisions && (observed != Label(v.decisions[k]) || observed == ABSENT)
    ensures Told(v, AlarmRecord(DECISION, k.epoch, Some(k.generation), Label(v.decisions[k]), observed))
  {
    ReadFields(DECISION, k.epoch, Some(k.generation), Label(v.decisions[k]), observed);
  }

  lemma HashTold(v: View, epoch: string, observed: string)
    requires epoch in v.contracts && (observed != v.contracts[epoch] || observed == ABSENT)
    ensures Told(v, AlarmRecord(CONTRACT, epoch, None, v.contracts[epoch], observed))
  {
    KeysDiffer();
    ReadFields(CONTRACT, epoch, None, v.contracts[epoch], observed);
  }

  lemma GenerationTold(s: Sys, g: Generation, n: nat)
    requires ToldSince(s, n)
    ensures ToldSince(SeeGeneration(s, g), n) && Extends(s.view, SeeGeneration(s, g).view)
  {
    if g.promoted.Some? {
      var p := g.promoted.value;
      if g.key !in s.view.decisions {
        ReadDecision(g.key, p);
        ToldMore(s, SeeGeneration(s, g), DecisionRecord(g.key, p), n);
      } else if s.view.decisions[g.key] != p {
        KeysDiffer();
        DecisionTold(s.view, g.key, Label(p));
        RaiseTold(s, DECISION, g.key.epoch, Some(g.key.generation), Label(s.view.decisions[g.key]), Label(p), n);
      }
    }
  }

  lemma EpochTold(s: Sys, e: EpochHash, n: nat)
    requires ToldSince(s, n)
    ensures ToldSince(SeeEpoch(s, e), n) && Extends(s.view, SeeEpoch(s, e).view)
  {
    if e.Stated() {
      if e.epoch !in s.view.contracts {
        ReadContract(e.epoch, e.hash.value);
        ToldMore(s, SeeEpoch(s, e), ContractRecord(e.epoch, e.hash.value), n);
      } else if s.view.contracts[e.epoch] != e.hash.value {
        HashTold(s.view, e.epoch, e.hash.value);
        RaiseTold(s, CONTRACT, e.epoch, None, s.view.contracts[e.epoch], e.hash.value, n);
      }
    }
  }

  lemma {:induction false} SeeAllTold(s: Sys, gs: seq<Generation>, n: nat)
    requires ToldSince(s, n)
    ensures ToldSince(SeeAll(s, gs), n)
  {
    if gs != [] {
      SeeAllTold(s, gs[..|gs| - 1], n);
      GenerationTold(SeeAll(s, gs[..|gs| - 1]), gs[|gs| - 1], n);
    }
  }

  /** Each missing value is a reference of the view. */
  ghost predicate MissingTold(v: View, field: string, ms: seq<Missing>) {
    forall i :: 0 <= i < |ms| ==> MissingIs(v, field, ms[i])
  }

  ghost predicate MissingIs(v: View, field: string, m: Missing) {
    if m.generation.Some? then
      field == DECISION && var k := GenKey(m.epoch, m.generation.value);
      k in v.decisions && m.recorded == Label(v.decisions[k])
    else field == CONTRACT && m.epoch in v.contracts && m.recorded == v.contracts[m.epoch]
  }

  lemma {:induction false} SeeEpochsTold(s: Sys, es: seq<EpochHash>, n: nat)
    requires ToldSince(s, n)
    ensures ToldSince(SeeEpochs(s, es), n)
    ensures MissingTold(SeeEpochs(s, es).view, CONTRACT, MissingEpochs(s, es))
  {
    if es != [] {
      var init, e := es[..|es| - 1], es[|es| - 1];
      SeeEpochsTold(s, init, n);
      EpochTold(SeeEpochs(s, init), e, n);
    }
  }

  lemma {:induction false} RaiseAbsentTold(s: Sys, field: string, was: set<Absence>, ms: seq<Missing>, n: nat)
    requires ToldSince(s, n) && MissingTold(s.view, field, ms)
    ensures var t := RaiseAbsent(s, field, was, ms);
            ToldSince(t, n) && t.view.decisions == s.view.decisions && t.view.contracts == s.view.contracts
  {
    if ms != [] {
      var init, m := ms[..|ms| - 1], ms[|ms| - 1];
      RaiseAbsentTold(s, field, was, init, n);
      var before := RaiseAbsent(s, field, was, init);
      assert MissingIs(s.view, field, m);
      if m.generation.Some? {
        DecisionTold(before.view, GenKey(m.epoch, m.generation.value), ABSENT);
      } else {
        HashTold(before.view, m.epoch, ABSENT);
      }
      RaiseTold(before, field, m.epoch, m.generation, m.recorded, ABSENT, n);
    }
  }

  lemma AbsencesTold(s: Sys, field: string, ms: seq<Missing>, n: nat)
    requires ToldSince(s, n) && MissingTold(s.view, field, ms)
    ensures ToldSince(Absences(s, field, ms), n)
  {
    RaiseAbsentTold(s, field, s.view.absent, ms, n);
    var t, u := RaiseAbsent(s, field, s.view.absent, ms), Absences(s, field, ms);
    forall i | n <= i < |u.log| ensures Told(u.view, u.log[i]) {
      ToldStays(t.view, u.view, t.log[i]);
    }
  }

  /** Each call lists the unresolved keys once. */
  ghost predicate Orderly(s: Sys, es: seq<Event>) {
    es == [] ||
    (var before, e := Run(s, es[..|es| - 1]), es[|es| - 1];
     Orderly(s, es[..|es| - 1]) && (e.Decisions? ==> LedgerAbsence.Orderly(before, e)))
  }

  lemma StepTold(s: Sys, e: Event, n: nat)
    requires ToldSince(s, n) && InSync(s) && (e.Decisions? ==> LedgerAbsence.Orderly(s, e))
    ensures ToldSince(Step(s, e), n)
  {
    match e
    case Decisions(gs, order) =>
      SeeAllTold(s, gs, n);
      var v := SeeAll(s, gs).view;
      forall i | 0 <= i < |order| ensures MissingIs(v, DECISION, MissingOf(v, order)[i]) {
        assert order[i] in order;
      }
      AbsencesTold(SeeAll(s, gs), DECISION, MissingOf(v, order), n);
    case Contracts(hs) =>
      SeeEpochsTold(s, hs, n);
      AbsencesTold(SeeEpochs(s, hs), CONTRACT, MissingEpochs(s, hs), n);
    case Other(r) =>
      if Foreign(r) {
        ToldMore(s, Step(s, e), r, n);
      }
    case Restart =>
      forall i | n <= i < |s.log| ensures Told(Step(s, e).view, s.log[i]) {
        ToldStays(s.view, Step(s, e).view, s.log[i]);
      }
  }

  /** Over any run from a loaded ledger, restarts included, every record it adds says
      what the references are: a decision and a hash are the first stated, and an
      alarm names the reference as recorded beside another value as observed. */
  lemma {:induction false} RecordsTold(s: Sys, es: seq<Event>)
    requires InSync(s) && Orderly(s, es)
    ensures ToldSince(Run(s, es), |s.log|)
  {
    if es != [] {
      RecordsTold(s, es[..|es| - 1]);
      MemoryEqualsReplay(s, es[..|es| - 1]);
      StepTold(Run(s, es[..|es| - 1]), es[|es| - 1], |s.log|);
    }
  }

  /** An alarm the replay knows is a record of the file. */
  lemma {:induction false} AlarmHasRecord(rs: seq<Record>, a: Alarm)
    ensures a in Replay(rs).alarms <==> exists i :: 0 <= i < |rs| && rs[i].kind == HistoryChanged && AlarmOf(rs[i]) == a
  {
    if rs != [] {
      var init := rs[..|rs| - 1];
      AlarmHasRecord(init, a);
      forall i | 0 <= i < |init| ensures init[i] == rs[i] {}
    }
  }

  lemma AlarmAmongNew(before: seq<Record>, rs: seq<Record>, a: Alarm) returns (i: nat)
    requires |before| <= |rs| && rs[..|before|] == before && a in Replay(rs).alarms && a !in Replay(before).alarms
    ensures |before| <= i < |rs| && rs[i].kind == HistoryChanged && AlarmOf(rs[i]) == a
  {
    AlarmHasRecord(rs, a);
    AlarmHasRecord(before, a);
    i :| 0 <= i < |rs| && rs[i].kind == HistoryChanged && AlarmOf(rs[i]) == a;
    assert forall j :: 0 <= j < |before| ==> before[j] == rs[..|before|][j];
  }

  /** Record i of the log is the alarm's, and says what was recorded and observed. */
  ghost predicate RecordsAlarm(s: Sys, i: nat, a: Alarm) {
    i < |s.log| && s.log[i].kind == HistoryChanged && AlarmOf(s.log[i]) == a && Told(s.view, s.log[i])
  }

  /** An alarm raised in the run has a record the run added. */
  lemma NewAlarmRecorded(s: Sys, es: seq<Event>, a: Alarm)
    requires InSync(s) && Orderly(s, es) && a in Run(s, es).view.alarms && a !in s.view.alarms
    ensures exists i :: |s.log| <= i && RecordsAlarm(Run(s, es), i, a)
  {
    MemoryEqualsReplay(s, es);
    RecordsTold(s, es);
    LogGrows(s, es);
    var i := AlarmAmongNew(s.log, Run(s, es).log, a);
    assert RecordsAlarm(Run(s, es), i, a);
  }
}
