/** When an `absent` alarm exists: after two consecutive ticks without the
    recorded value, and for contract hashes also after a stated "absent". */
module LedgerAbsence {
  import opened Common
  import opened LedgerObserver

  function Gone(k: GenKey): Alarm { Alarm(DECISION, k.epoch, k.generation, ABSENT) }

  function Lacking(k: GenKey): Absence { Absence(DECISION, k.epoch, k.generation) }

  // ---- one call -----------------------------------------------------------

  /** What a step leaves of one generation: whether it is recorded, absent last
      time, and alarmed as absent. */
  ghost predicate SameFor(s: Sys, t: Sys, k: GenKey) {
    && (k in t.view.decisions <==> k in s.view.decisions)
    && (Lacking(k) in t.view.absent <==> Lacking(k) in s.view.absent)
    && (Gone(k) in t.view.alarms <==> Gone(k) in s.view.alarms)
  }

  lemma {:induction false} SeeAllEffect(s: Sys, gs: seq<Generation>, k: GenKey)
    ensures k in SeeAll(s, gs).view.decisions <==> k in s.view.decisions || k in Resolved(gs)
    ensures SeeAll(s, gs).view.absent == s.view.absent
    ensures Gone(k) in SeeAll(s, gs).view.alarms <==> Gone(k) in s.view.alarms
  {
    if gs != [] {
      var init, g := gs[..|gs| - 1], gs[|gs| - 1];
      SeeAllEffect(s, init, k);
      KeysDiffer();
      assert k in Resolved(gs) <==> k in Resolved(init) || (g.promoted.Some? && g.key == k) by {
        assert gs == init + [g];
      }
    }
  }

  lemma {:induction false} RaiseAbsentEffect(s: Sys, field: string, was: set<Absence>, ms: seq<Missing>, a: Absence)
    requires a in was
    ensures Alarm(a.field, a.epoch, a.generation, ABSENT) in RaiseAbsent(s, field, was, ms).view.alarms <==>
              Alarm(a.field, a.epoch, a.generation, ABSENT) in s.view.alarms || a in Now(field, ms)
    ensures RaiseAbsent(s, field, was, ms).view.decisions == s.view.decisions
    ensures RaiseAbsent(s, field, was, ms).view.contracts == s.view.contracts
  {
    if ms != [] {
      var init, m := ms[..|ms| - 1], ms[|ms| - 1];
      RaiseAbsentEffect(s, field, was, init, a);
      assert a in Now(field, ms) <==> a in Now(field, init) || m.Key(field) == a by {
        assert ms == init + [m];
      }
    }
  }

  lemma {:induction false} RaiseAbsentQuiet(s: Sys, field: string, was: set<Absence>, ms: seq<Missing>, a: Absence)
    requires a !in was
    ensures Alarm(a.field, a.epoch, a.generation, ABSENT) in RaiseAbsent(s, field, was, ms).view.alarms <==>
              Alarm(a.field, a.epoch, a.generation, ABSENT) in s.view.alarms
    ensures RaiseAbsent(s, field, was, ms).view.decisions == s.view.decisions
    ensures RaiseAbsent(s, field, was, ms).view.contracts == s.view.contracts
  {
    if ms != [] {
      RaiseAbsentQuiet(s, field, was, ms[..|ms| - 1], a);
    }
  }

  /** `absences` for the field an absence belongs to. */
  lemma AbsencesEffect(s: Sys, ms: seq<Missing>, a: Absence)
    ensures var t := Absences(s, a.field, ms);
            && (a in t.view.absent <==> a in Now(a.field, ms))
            && (Alarm(a.field, a.epoch, a.generation, ABSENT) in t.view.alarms <==>
                  || Alarm(a.field, a.epoch, a.generation, ABSENT) in s.view.alarms
                  || (a in s.view.absent && a in Now(a.field, ms)))
            && t.view.decisions == s.view.decisions && t.view.contracts == s.view.contracts
  {
    if a in s.view.absent {
      RaiseAbsentEffect(s, a.field, s.view.absent, ms, a);
    } else {
      RaiseAbsentQuiet(s, a.field, s.view.absent, ms, a);
    }
  }

  /** `absences` for any other field. */
  lemma {:induction false} RaiseAbsentElsewhere(s: Sys, field: string, was: set<Absence>, ms: seq<Missing>, a: Absence)
    requires a.field != field
    ensures Alarm(a.field, a.epoch, a.generation, ABSENT) in RaiseAbsent(s, field, was, ms).view.alarms <==>
              Alarm(a.field, a.epoch, a.generation, ABSENT) in s.view.alarms
    ensures RaiseAbsent(s, field, was, ms).view.decisions == s.view.decisions
    ensures RaiseAbsent(s, field, was, ms).view.contracts == s.view.contracts
  {
    if ms != [] {
      RaiseAbsentElsewhere(s, field, was, ms[..|ms| - 1], a);
    }
  }

  lemma AbsencesElsewhere(s: Sys, field: string, ms: seq<Missing>, a: Absence)
    requires a.field != field
    ensures var t := Absences(s, field, ms);
            && (a in t.view.absent <==> a in s.view.absent)
            && (Alarm(a.field, a.epoch, a.generation, ABSENT) in t.view.alarms <==>
                  Alarm(a.field, a.epoch, a.generation, ABSENT) in s.view.alarms)
            && t.view.decisions == s.view.decisions && t.view.contracts == s.view.contracts
  {
    RaiseAbsentElsewhere(s, field, s.view.absent, ms, a);
  }

  /** Recorded before the call and not resolved by it. */
  ghost predicate MissedBy(s: Sys, gs: seq<Generation>, k: GenKey) {
    k in s.view.decisions && k !in Resolved(gs)
  }

  lemma DecisionsEffect(s: Sys, gs: seq<Generation>, order: seq<GenKey>, k: GenKey)
    requires Lists(order, SeeAll(s, gs).view.decisions.Keys - Resolved(gs))
    ensures var t := DecisionsStep(s, gs, order);
            && (Lacking(k) in t.view.absent <==> MissedBy(s, gs, k))
            && (Gone(k) in t.view.alarms <==>
                  Gone(k) in s.view.alarms || (Lacking(k) in s.view.absent && MissedBy(s, gs, k)))
            && (k in t.view.decisions <==> k in s.view.decisions || k in Resolved(gs))
  {
    var seen := SeeAll(s, gs);
    var ms := MissingOf(seen.view, order);
    SeeAllEffect(s, gs, k);
    AbsencesEffect(seen, ms, Lacking(k));
    assert Lacking(k) in Now(DECISION, ms) <==> k in order by {
      if k in order {
        var i :| 0 <= i < |order| && order[i] == k;
        assert ms[i].Key(DECISION) == Lacking(k);
      }
      if Lacking(k) in Now(DECISION, ms) {
        var i :| 0 <= i < |ms| && ms[i].Key(DECISION) == Lacking(k);
        assert order[i] == k;
      }
    }
  }

  lemma {:induction false} SeeEpochsEffect(s: Sys, es: seq<EpochHash>, k: GenKey)
    ensures SameFor(s, SeeEpochs(s, es), k)
  {
    if es != [] {
      SeeEpochsEffect(s, es[..|es| - 1], k);
      KeysDiffer();
    }
  }

  /** Observing contract hashes leaves every decision's absence as it was. */
  lemma ContractsLeaveDecisions(s: Sys, es: seq<EpochHash>, k: GenKey)
    ensures SameFor(s, ContractsStep(s, es), k)
  {
    KeysDiffer();
    SeeEpochsEffect(s, es, k);
    AbsencesElsewhere(SeeEpochs(s, es), CONTRACT, MissingEpochs(s, es), Lacking(k));
  }

  lemma {:induction false} SeeAllLeaves(s: Sys, gs: seq<Generation>, epoch: string)
    ensures SameEpoch(s, SeeAll(s, gs), epoch)
  {
    if gs != [] {
      SeeAllLeaves(s, gs[..|gs| - 1], epoch);
      KeysDiffer();
    }
  }

  function Unstated(epoch: string): Absence { Absence(CONTRACT, epoch, "") }

  function GoneHash(epoch: string): Alarm { Alarm(CONTRACT, epoch, "", ABSENT) }

  /** What a step leaves of one epoch's hash. */
  ghost predicate SameEpoch(s: Sys, t: Sys, epoch: string) {
    && t.view.contracts == s.view.contracts
    && (Unstated(epoch) in t.view.absent <==> Unstated(epoch) in s.view.absent)
    && (GoneHash(epoch) in t.view.alarms <==> GoneHash(epoch) in s.view.alarms)
  }

  /** Observing decisions leaves every contract hash's absence as it was. */
  lemma DecisionsLeaveContracts(s: Sys, gs: seq<Generation>, order: seq<GenKey>, epoch: string)
    ensures SameEpoch(s, DecisionsStep(s, gs, order), epoch)
  {
    KeysDiffer();
    SeeAllLeaves(s, gs, epoch);
    var seen := SeeAll(s, gs);
    AbsencesElsewhere(seen, DECISION, MissingOf(seen.view, order), Unstated(epoch));
  }

  // ---- consecutive calls --------------------------------------------------

  /** One event of a run: whether it is a call of the kind in question, and whether
      that call missed the value in question. */
  datatype Mark = Mark(call: bool, missed: bool)

  ghost predicate MissedAt(ms: seq<Mark>, i: nat)
    requires i < |ms|
  {
    ms[i].call && ms[i].missed
  }

  ghost predicate NoCall(ms: seq<Mark>, i: nat, j: nat)
    requires j <= |ms|
  {
    forall m :: i < m < j ==> !ms[m].call
  }

  /** The last call missed it. */
  ghost predicate MissedLast(ms: seq<Mark>) {
    exists i :: 0 <= i < |ms| && MissedAt(ms, i) && NoCall(ms, i, |ms|)
  }

  /** Two consecutive calls missed it. */
  ghost predicate MissedTwice(ms: seq<Mark>) {
    exists j :: 0 <= j < |ms| && Again(ms, j)
  }

  /** Call j missed it, and so did the call before. */
  ghost predicate Again(ms: seq<Mark>, j: nat)
    requires j < |ms|
  {
    MissedAt(ms, j) && exists i :: 0 <= i < j && MissedAt(ms, i) && NoCall(ms, i, j)
  }

  lemma MissedLastStep(ms: seq<Mark>, m: Mark)
    ensures MissedLast(ms + [m]) <==> if m.call then m.missed else MissedLast(ms)
  {
    var all, n := ms + [m], |ms|;
    forall i | 0 <= i < n
      ensures MissedAt(all, i) && NoCall(all, i, n + 1) <==> MissedAt(ms, i) && NoCall(ms, i, n) && !m.call
    {
      assert forall p :: 0 <= p < n ==> all[p] == ms[p];
      assert all[n] == m;
    }
    if m.call && m.missed {
      assert MissedAt(all, n) && NoCall(all, n, n + 1);
    }
  }

  lemma AgainStays(ms: seq<Mark>, m: Mark, j: nat)
    requires j < |ms|
    ensures Again(ms + [m], j) <==> Again(ms, j)
  {
    var all := ms + [m];
    assert forall p :: 0 <= p < |ms| ==> all[p] == ms[p];
    forall i | 0 <= i < j ensures MissedAt(all, i) && NoCall(all, i, j) <==> MissedAt(ms, i) && NoCall(ms, i, j) {}
  }

  lemma AgainLast(ms: seq<Mark>, m: Mark)
    ensures Again(ms + [m], |ms|) <==> m.call && m.missed && MissedLast(ms)
  {
    var all, n := ms + [m], |ms|;
    assert forall p :: 0 <= p < n ==> all[p] == ms[p];
    forall i | 0 <= i < n ensures MissedAt(all, i) && NoCall(all, i, n) <==> MissedAt(ms, i) && NoCall(ms, i, n) {}
  }

  lemma MissedTwiceStep(ms: seq<Mark>, m: Mark)
    ensures MissedTwice(ms + [m]) <==> MissedTwice(ms) || (m.call && m.missed && MissedLast(ms))
  {
    forall j | 0 <= j < |ms| ensures Again(ms + [m], j) <==> Again(ms, j) {
      AgainStays(ms, m, j);
    }
    AgainLast(ms, m);
  }

  // ---- decisions over whole runs ------------------------------------------

  ghost predicate Orderly(s: Sys, e: Event)
    requires e.Decisions?
  {
    Lists(e.order, SeeAll(s, e.gs).view.decisions.Keys - Resolved(e.gs))
  }

  /** A run within one process, each call listing the unresolved keys once. */
  ghost predicate OneProcess(s: Sys, es: seq<Event>) {
    es == [] ||
    (var before, e := Run(s, es[..|es| - 1]), es[|es| - 1];
     OneProcess(s, es[..|es| - 1]) && !e.Restart? && (e.Decisions? ==> Orderly(before, e)))
  }

  /** Which events are `observe_decisions` calls, and which of them found k recorded
      and unresolved. */
  ghost function DecisionMarks(s: Sys, es: seq<Event>, k: GenKey): (ms: seq<Mark>)
    ensures |ms| == |es|
  {
    if es == [] then []
    else
      var before, e := Run(s, es[..|es| - 1]), es[|es| - 1];
      DecisionMarks(s, es[..|es| - 1], k) + [Mark(e.Decisions?, e.Decisions? && MissedBy(before, e.gs, k))]
  }

  lemma {:induction false} DecisionMarkAt(s: Sys, es: seq<Event>, k: GenKey, i: nat)
    requires i < |es|
    ensures DecisionMarks(s, es, k)[i] ==
              Mark(es[i].Decisions?, es[i].Decisions? && MissedBy(Run(s, es[..i]), es[i].gs, k))
  {
    var n := |es| - 1;
    if i < n {
      DecisionMarkAt(s, es[..n], k, i);
      assert es[..n][..i] == es[..i];
    }
  }

  /** Within one process an `absent` alarm for a generation's decision exists if
      and only if it was loaded, or the generation was recorded and unresolved in
      two consecutive `observe_decisions` calls; contract-hash calls between them
      change nothing. */
  lemma {:induction false} AbsentIffMissedTwice(s: Sys, es: seq<Event>, k: GenKey)
    requires OneProcess(s, es) && Lacking(k) !in s.view.absent
    ensures Gone(k) in Run(s, es).view.alarms <==> Gone(k) in s.view.alarms || MissedTwice(DecisionMarks(s, es, k))
    ensures Lacking(k) in Run(s, es).view.absent <==> MissedLast(DecisionMarks(s, es, k))
  {
    if es != [] {
      var init, e := es[..|es| - 1], es[|es| - 1];
      var before := Run(s, init);
      AbsentIffMissedTwice(s, init, k);
      var ms, m := DecisionMarks(s, init, k), Mark(e.Decisions?, e.Decisions? && MissedBy(before, e.gs, k));
      MissedLastStep(ms, m);
      MissedTwiceStep(ms, m);
      LastEffect(before, e, k);
    }
  }

  /** One call of a process, from the generation's point of view. */
  lemma LastEffect(s: Sys, e: Event, k: GenKey)
    requires !e.Restart? && (e.Decisions? ==> Orderly(s, e))
    ensures !e.Decisions? ==> SameFor(s, Step(s, e), k)
    ensures e.Decisions? ==>
              && (Lacking(k) in Step(s, e).view.absent <==> MissedBy(s, e.gs, k))
              && (Gone(k) in Step(s, e).view.alarms <==>
                    Gone(k) in s.view.alarms || (Lacking(k) in s.view.absent && MissedBy(s, e.gs, k)))
  {
    match e
    case Decisions(gs, order) => DecisionsEffect(s, gs, order, k);
    case Contracts(hs) => ContractsLeaveDecisions(s, hs, k);
    case Other(r) =>
  }

  // ---- contract hashes ----------------------------------------------------

  /** For contract hashes the observed value is free text, so the claim fails:
      an epoch that states the hash "absent" raises the same alarm while present. */
  lemma StatedAbsentRaisesAbsent(s: Sys, epoch: string)
    requires epoch in s.view.contracts && s.view.contracts[epoch] != ABSENT
    ensures var t := ContractsStep(s, [EpochHash(epoch, Some(ABSENT))]);
            && GoneHash(epoch) in t.view.alarms
            && Unstated(epoch) !in t.view.absent
  {
    var es := [EpochHash(epoch, Some(ABSENT))];
    assert es[..0] == [];
    assert SeeEpochs(s, es) == SeeEpoch(s, es[0]);
    assert MissingEpochs(s, es) == [];
  }

  /** Whether a call states the hash "absent" for an epoch recorded otherwise. */
  ghost predicate StatesAbsent(s: Sys, es: seq<EpochHash>, epoch: string) {
    exists i :: 0 <= i < |es| && StatedIn(s, es, i, epoch)
  }

  ghost predicate StatedIn(s: Sys, es: seq<EpochHash>, i: nat, epoch: string)
    requires i < |es|
  {
    StatedHere(SeeEpochs(s, es[..i]), es[i], epoch)
  }

  lemma StatesAbsentStep(s: Sys, es: seq<EpochHash>, epoch: string)
    requires es != []
    ensures StatesAbsent(s, es, epoch) <==> StatesAbsent(s, es[..|es| - 1], epoch) || StatedIn(s, es, |es| - 1, epoch)
  {
    var n := |es| - 1;
    forall i | 0 <= i < n ensures StatedIn(s, es, i, epoch) <==> StatedIn(s, es[..n], i, epoch) {
      assert es[..n][..i] == es[..i];
    }
  }

  ghost predicate StatedHere(s: Sys, e: EpochHash, epoch: string) {
    e.epoch == epoch && e.hash == Some(ABSENT) && epoch in s.view.contracts && s.view.contracts[epoch] != ABSENT
  }

  /** One `observe_contracts` call raises the alarm exactly for a second absence
      in a row or a stated "absent". */
  lemma ContractsEffect(s: Sys, es: seq<EpochHash>, epoch: string)
    ensures var a := Unstated(epoch);
            var t := ContractsStep(s, es);
            && (a in t.view.absent <==> a in Now(CONTRACT, MissingEpochs(s, es)))
            && (GoneHash(epoch) in t.view.alarms <==>
                  || GoneHash(epoch) in s.view.alarms
                  || StatesAbsent(s, es, epoch)
                  || (a in s.view.absent && a in Now(CONTRACT, MissingEpochs(s, es))))
  {
    StatedEffect(s, es, epoch);
    AbsencesEffect(SeeEpochs(s, es), MissingEpochs(s, es), Unstated(epoch));
  }

  lemma {:induction false} StatedEffect(s: Sys, es: seq<EpochHash>, epoch: string)
    ensures SeeEpochs(s, es).view.absent == s.view.absent
    ensures GoneHash(epoch) in SeeEpochs(s, es).view.alarms <==>
              GoneHash(epoch) in s.view.alarms || StatesAbsent(s, es, epoch)
  {
    if es != [] {
      var n := |es| - 1;
      var init := es[..n];
      StatedEffect(s, init, epoch);
      StatesAbsentStep(s, es, epoch);
      assert ABSENT != "";
    }
  }

  /** The call asked about the epoch, recorded by then, and it stated nothing. */
  ghost predicate LeftOut(s: Sys, es: seq<EpochHash>, epoch: string) {
    exists i :: 0 <= i < |es| && LeftOutAt(s, es, i, epoch)
  }

  ghost predicate LeftOutAt(s: Sys, es: seq<EpochHash>, i: nat, epoch: string)
    requires i < |es|
  {
    LeftOutHere(SeeEpochs(s, es[..i]), es[i], epoch)
  }

  ghost predicate LeftOutHere(s: Sys, e: EpochHash, epoch: string) {
    e.epoch == epoch && !e.Stated() && epoch in s.view.contracts
  }

  lemma {:induction false} MissingIsLeftOut(s: Sys, es: seq<EpochHash>, epoch: string)
    ensures Unstated(epoch) in Now(CONTRACT, MissingEpochs(s, es)) <==> LeftOut(s, es, epoch)
  {
    if es != [] {
      var n := |es| - 1;
      var init, e := es[..n], es[n];
      MissingIsLeftOut(s, init, epoch);
      LeftOutStep(s, es, epoch);
      var before, v := MissingEpochs(s, init), SeeEpochs(s, init).view;
      if !e.Stated() && e.epoch in v.contracts {
        NowMore(before, Missing(e.epoch, None, v.contracts[e.epoch]));
      } else {
        assert MissingEpochs(s, es) == before;
      }
    }
  }

  lemma NowMore(ms: seq<Missing>, m: Missing)
    ensures Now(CONTRACT, ms + [m]) == Now(CONTRACT, ms) + {m.Key(CONTRACT)}
  {
    var all := ms + [m];
    assert all[|ms|] == m && forall i :: 0 <= i < |ms| ==> all[i] == ms[i];
  }

  lemma LeftOutStep(s: Sys, es: seq<EpochHash>, epoch: string)
    requires es != []
    ensures LeftOut(s, es, epoch) <==>
              LeftOut(s, es[..|es| - 1], epoch) || LeftOutAt(s, es, |es| - 1, epoch)
  {
    var n := |es| - 1;
    forall i | 0 <= i < n ensures LeftOutAt(s, es, i, epoch) <==> LeftOutAt(s, es[..n], i, epoch) {
      assert es[..n][..i] == es[..i];
    }
  }

  /** Which events are `observe_contracts` calls, and which of them left the epoch
      out. */
  ghost function ContractMarks(s: Sys, es: seq<Event>, epoch: string): (ms: seq<Mark>)
    ensures |ms| == |es|
  {
    if es == [] then []
    else
      var before, e := Run(s, es[..|es| - 1]), es[|es| - 1];
      ContractMarks(s, es[..|es| - 1], epoch) + [Mark(e.Contracts?, e.Contracts? && LeftOut(before, e.es, epoch))]
  }

  lemma {:induction false} ContractMarkAt(s: Sys, es: seq<Event>, epoch: string, i: nat)
    requires i < |es|
    ensures ContractMarks(s, es, epoch)[i] ==
              Mark(es[i].Contracts?, es[i].Contracts? && LeftOut(Run(s, es[..i]), es[i].es, epoch))
  {
    var n := |es| - 1;
    if i < n {
      ContractMarkAt(s, es[..n], epoch, i);
      assert es[..n][..i] == es[..i];
    }
  }

  /** Some call stated "absent" for the epoch against another recorded hash. */
  ghost predicate EverStated(s: Sys, es: seq<Event>, epoch: string) {
    exists i :: 0 <= i < |es| && StatedAt(s, es, i, epoch)
  }

  ghost predicate StatedAt(s: Sys, es: seq<Event>, i: nat, epoch: string)
    requires i < |es|
  {
    es[i].Contracts? && StatesAbsent(Run(s, es[..i]), es[i].es, epoch)
  }

  lemma EverStatedStep(s: Sys, es: seq<Event>, epoch: string)
    requires es != []
    ensures EverStated(s, es, epoch) <==> EverStated(s, es[..|es| - 1], epoch) || StatedAt(s, es, |es| - 1, epoch)
  {
    var n := |es| - 1;
    forall i | 0 <= i < n ensures StatedAt(s, es, i, epoch) <==> StatedAt(s, es[..n], i, epoch) {
      assert es[..n][..i] == es[..i];
    }
  }

  /** One call of a process, from the epoch's point of view. */
  lemma LastHashEffect(s: Sys, e: Event, epoch: string)
    requires !e.Restart?
    ensures !e.Contracts? ==> SameEpoch(s, Step(s, e), epoch)
    ensures e.Contracts? ==>
              && (Unstated(epoch) in Step(s, e).view.absent <==> LeftOut(s, e.es, epoch))
              && (GoneHash(epoch) in Step(s, e).view.alarms <==>
                    || GoneHash(epoch) in s.view.alarms || StatesAbsent(s, e.es, epoch)
                    || (Unstated(epoch) in s.view.absent && LeftOut(s, e.es, epoch)))
  {
    match e
    case Decisions(gs, order) => DecisionsLeaveContracts(s, gs, order, epoch);
    case Contracts(hs) =>
      ContractsEffect(s, hs, epoch);
      MissingIsLeftOut(s, hs, epoch);
    case Other(r) =>
  }

  /** Within one process an `absent` alarm for an epoch's hash exists if and only if
      it was loaded, or two consecutive `observe_contracts` calls left the recorded
      epoch out, or some call stated "absent" against another recorded hash;
      decision calls between them change nothing. */
  lemma {:induction false} AbsentHashIff(s: Sys, es: seq<Event>, epoch: string)
    requires (forall i :: 0 <= i < |es| ==> !es[i].Restart?) && Unstated(epoch) !in s.view.absent
    ensures GoneHash(epoch) in Run(s, es).view.alarms <==>
              GoneHash(epoch) in s.view.alarms || MissedTwice(ContractMarks(s, es, epoch)) || EverStated(s, es, epoch)
    ensures Unstated(epoch) in Run(s, es).view.absent <==> MissedLast(ContractMarks(s, es, epoch))
  {
    if es != [] {
      var init, e := es[..|es| - 1], es[|es| - 1];
      var before := Run(s, init);
      AbsentHashIff(s, init, epoch);
      var ms, m := ContractMarks(s, init, epoch), Mark(e.Contracts?, e.Contracts? && LeftOut(before, e.es, epoch));
      MissedLastStep(ms, m);
      MissedTwiceStep(ms, m);
      EverStatedStep(s, es, epoch);
      LastHashEffect(before, e, epoch);
    }
  }
}
