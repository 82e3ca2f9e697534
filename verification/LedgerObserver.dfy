/** The transition observer: what it remembers, what it writes to the ledger, and
    what a replay of the ledger rebuilds. */
module LedgerObserver {
  import opened Common
  import opened LedgerFormat

  datatype GenKey = GenKey(epoch: string, generation: string)

  /** An alarm already raised; `generation` is empty for an epoch-wide field. */
  datatype Alarm = Alarm(field: string, epoch: string, generation: string, observed: string)

  /** A recorded value that did not resolve on the previous tick. */
  datatype Absence = Absence(field: string, epoch: string, generation: string)

  datatype View = View(
    decisions: map<GenKey, bool>, contracts: map<string, string>,
    alarms: set<Alarm>, absent: set<Absence>)

  const EMPTY: View := View(map[], map[], {}, {})

  const DECISION: Key := "decision"
  const CONTRACT: Key := "contract_hash"
  const ABSENT := "absent"
  const EPOCH: Key := "epoch_id"
  const GENERATION: Key := "generation_id"
  const OBSERVED: Key := "observed"
  const FIELD: Key := "field"
  const RECORDED: Key := "recorded"

  lemma KeysDiffer()
    ensures EPOCH != GENERATION && EPOCH != DECISION && EPOCH != CONTRACT && EPOCH != FIELD
    ensures GENERATION != DECISION && GENERATION != FIELD && GENERATION != EPOCH
    ensures OBSERVED != FIELD && OBSERVED != EPOCH && OBSERVED != GENERATION && OBSERVED != RECORDED
    ensures "promote" != ABSENT && "reject" != ABSENT && "promote" != "reject"
    ensures DECISION != CONTRACT && RECORDED != FIELD && RECORDED != EPOCH && RECORDED != GENERATION
  {
    assert RECORDED[0] != FIELD[0] && RECORDED[0] != EPOCH[0] && RECORDED[0] != GENERATION[0];
    assert EPOCH[0] != GENERATION[0] && EPOCH[0] != DECISION[0] && EPOCH[0] != CONTRACT[0] && EPOCH[0] != FIELD[0];
    assert GENERATION[0] != DECISION[0] && GENERATION[0] != FIELD[0];
    assert OBSERVED[0] != FIELD[0] && OBSERVED[0] != EPOCH[0] && OBSERVED[0] != GENERATION[0];
    assert OBSERVED[0] != RECORDED[0];
    assert "promote"[0] != ABSENT[0] && "reject"[0] != ABSENT[0] && "promote"[0] != "reject"[0];
    assert DECISION[0] != CONTRACT[0];
  }

  function Label(promoted: bool): string { if promoted then "promote" else "reject" }

  // ---- the records --------------------------------------------------------

  function DecisionRecord(key: GenKey, promoted: bool): Record {
    Record(DecisionObserved,
           Json(map[EPOCH := One(Str(key.epoch)), GENERATION := One(Str(key.generation)),
                    DECISION := One(Str(Label(promoted)))]))
  }

  function ContractRecord(epoch: string, hash: string): Record {
    Record(ContractChange, Json(map[EPOCH := One(Str(epoch)), CONTRACT := One(Str(hash))]))
  }

  function AlarmRecord(field: string, epoch: string, generation: Option<string>, recorded: string, observed: string)
    : Record
  {
    Record(HistoryChanged,
           Json(map[FIELD := One(Str(field)), EPOCH := One(Str(epoch)),
                    GENERATION := One(if generation.Some? then Str(generation.value) else Null),
                    RECORDED := One(Str(recorded)), OBSERVED := One(Str(observed))]))
  }

  // ---- replay -------------------------------------------------------------

  function TextAt(r: Record, key: Key): string {
    var v := r.payload.Get(key);
    if v.Some? && v.value.One? && v.value.leaf.Str? then v.value.leaf.s else ""
  }

  function KeyOf(r: Record): GenKey { GenKey(TextAt(r, EPOCH), TextAt(r, GENERATION)) }

  function AlarmOf(r: Record): Alarm {
    Alarm(TextAt(r, FIELD), TextAt(r, EPOCH), TextAt(r, GENERATION), TextAt(r, OBSERVED))
  }

  /** One record of `LedgerHistory::load`: the first value for a key wins. */
  function Learn(v: View, r: Record): View {
    match r.kind
    case DecisionObserved =>
      if KeyOf(r) in v.decisions then v
      else v.(decisions := v.decisions[KeyOf(r) := TextAt(r, DECISION) == "promote"])
    case ContractChange =>
      if TextAt(r, CONTRACT) == "" || TextAt(r, EPOCH) in v.contracts then v
      else v.(contracts := v.contracts[TextAt(r, EPOCH) := TextAt(r, CONTRACT)])
    case HistoryChanged => v.(alarms := v.alarms + {AlarmOf(r)})
    case _ => v
  }

  function Replay(rs: seq<Record>): View {
    if rs == [] then EMPTY else Learn(Replay(rs[..|rs| - 1]), rs[|rs| - 1])
  }

  /** Lines 825-863: the loop over the file's records. */
  method Load(rs: seq<Record>) returns (v: View)
    ensures v == Replay(rs)
  {
    v := EMPTY;
    for n := 0 to |rs|
      invariant v == Replay(rs[..n])
    {
      assert rs[..n + 1][..n] == rs[..n];
      v := Learn(v, rs[n]);
    }
    assert rs[..|rs|] == rs;
  }

  lemma ReplayOneMore(rs: seq<Record>, r: Record)
    ensures Replay(rs + [r]) == Learn(Replay(rs), r)
  {
    assert (rs + [r])[..|rs|] == rs;
  }

  lemma ReadDecision(key: GenKey, promoted: bool)
    ensures KeyOf(DecisionRecord(key, promoted)) == key
    ensures (TextAt(DecisionRecord(key, promoted), DECISION) == "promote") == promoted
  {
    KeysDiffer();
  }

  lemma ReadContract(epoch: string, hash: string)
    ensures TextAt(ContractRecord(epoch, hash), EPOCH) == epoch
    ensures TextAt(ContractRecord(epoch, hash), CONTRACT) == hash
  {
    KeysDiffer();
  }

  lemma ReadAlarm(field: string, epoch: string, generation: Option<string>, recorded: string, observed: string)
    ensures AlarmOf(AlarmRecord(field, epoch, generation, recorded, observed)) ==
            Alarm(field, epoch, if generation.Some? then generation.value else "", observed)
  {
    KeysDiffer();
  }

  // ---- observing ----------------------------------------------------------

  /** The observer beside the ledger's records, every append succeeding. */
  datatype Sys = Sys(view: View, log: seq<Record>)

  /** `alarm`, lines 764-800. */
  function Raise(s: Sys, field: string, epoch: string, generation: Option<string>, recorded: string, observed: string)
    : Sys
  {
    var a := Alarm(field, epoch, if generation.Some? then generation.value else "", observed);
    if a in s.view.alarms then s
    else Sys(s.view.(alarms := s.view.alarms + {a}),
             s.log + [AlarmRecord(field, epoch, generation, recorded, observed)])
  }

  datatype Generation = Generation(key: GenKey, promoted: Option<bool>)

  /** The loop body of `observe_decisions`, lines 631-660. */
  function SeeGeneration(s: Sys, g: Generation): Sys {
    if g.promoted.None? then s
    else if g.key !in s.view.decisions then
      Sys(s.view.(decisions := s.view.decisions[g.key := g.promoted.value]),
          s.log + [DecisionRecord(g.key, g.promoted.value)])
    else if s.view.decisions[g.key] == g.promoted.value then s
    else Raise(s, DECISION, g.key.epoch, Some(g.key.generation),
               Label(s.view.decisions[g.key]), Label(g.promoted.value))
  }

  function SeeAll(s: Sys, gs: seq<Generation>): Sys {
    if gs == [] then s else SeeGeneration(SeeAll(s, gs[..|gs| - 1]), gs[|gs| - 1])
  }

  function Resolved(gs: seq<Generation>): set<GenKey> {
    set i | 0 <= i < |gs| && gs[i].promoted.Some? :: gs[i].key
  }

  /** A recorded value with nothing to compare it with. */
  datatype Missing = Missing(epoch: string, generation: Option<string>, recorded: string)
  {
    function Key(field: string): Absence {
      Absence(field, epoch, if generation.Some? then generation.value else "")
    }
  }

  function MissingOf(v: View, order: seq<GenKey>): (ms: seq<Missing>)
    ensures |ms| == |order|
  {
    seq(|order|, i requires 0 <= i < |order| =>
        Missing(order[i].epoch, Some(order[i].generation),
                if order[i] in v.decisions then Label(v.decisions[order[i]]) else ""))
  }

  function RaiseAbsent(s: Sys, field: string, was: set<Absence>, ms: seq<Missing>): Sys {
    if ms == [] then s
    else
      var before, m := RaiseAbsent(s, field, was, ms[..|ms| - 1]), ms[|ms| - 1];
      if m.Key(field) in was then Raise(before, field, m.epoch, m.generation, m.recorded, ABSENT) else before
  }

  function Now(field: string, ms: seq<Missing>): set<Absence> {
    set i | 0 <= i < |ms| :: ms[i].Key(field)
  }

  /** `absences`, lines 702-720: alarm on what was missing last time too, and
      remember what is missing now, for one field. */
  function Absences(s: Sys, field: string, ms: seq<Missing>): Sys {
    var raised := RaiseAbsent(s, field, s.view.absent, ms);
    raised.(view := raised.view.(absent := (set a <- s.view.absent | a.field != field) + Now(field, ms)))
  }

  /** `observe_decisions`; `order` is the order in which the map of recorded
      decisions yields the unresolved keys. */
  function DecisionsStep(s: Sys, gs: seq<Generation>, order: seq<GenKey>): Sys {
    var seen := SeeAll(s, gs);
    Absences(seen, DECISION, MissingOf(seen.view, order))
  }

  ghost predicate Lists(order: seq<GenKey>, keys: set<GenKey>) {
    Distinct(order) && forall k :: k in order <==> k in keys
  }

  datatype EpochHash = EpochHash(epoch: string, hash: Option<string>)
  {
    predicate Stated() { hash.Some? && hash.value != "" }
  }

  /** `observe_contract`, lines 726-761. */
  function SeeContract(s: Sys, epoch: string, hash: string): Sys {
    if hash == "" then s
    else if epoch !in s.view.contracts then
      Sys(s.view.(contracts := s.view.contracts[epoch := hash]), s.log + [ContractRecord(epoch, hash)])
    else if s.view.contracts[epoch] == hash then s
    else Raise(s, CONTRACT, epoch, None, s.view.contracts[epoch], hash)
  }

  function SeeEpoch(s: Sys, e: EpochHash): Sys {
    if e.Stated() then SeeContract(s, e.epoch, e.hash.value) else s
  }

  function SeeEpochs(s: Sys, es: seq<EpochHash>): Sys {
    if es == [] then s else SeeEpoch(SeeEpochs(s, es[..|es| - 1]), es[|es| - 1])
  }

  function MissingEpochs(s: Sys, es: seq<EpochHash>): seq<Missing> {
    if es == [] then []
    else
      var init, e := es[..|es| - 1], es[|es| - 1];
      var v := SeeEpochs(s, init).view;
      MissingEpochs(s, init) +
      if !e.Stated() && e.epoch in v.contracts then [Missing(e.epoch, None, v.contracts[e.epoch])] else []
  }

  /** `observe_contracts`, lines 678-696. */
  function ContractsStep(s: Sys, es: seq<EpochHash>): Sys {
    Absences(SeeEpochs(s, es), CONTRACT, MissingEpochs(s, es))
  }

  // ---- memory equals replay -----------------------------------------------

  /** The observer remembers exactly what a restart would load. */
  ghost predicate InSync(s: Sys) {
    var v := Replay(s.log);
    v.decisions == s.view.decisions && v.contracts == s.view.contracts && v.alarms == s.view.alarms
  }

  /** A record the replay before it did not already hold. */
  predicate IsNews(v: View, r: Record) {
    match r.kind
    case DecisionObserved => KeyOf(r) !in v.decisions
    case ContractChange => TextAt(r, CONTRACT) != "" && TextAt(r, EPOCH) !in v.contracts
    case HistoryChanged => AlarmOf(r) !in v.alarms
    case _ => true
  }

  /** From record n on, every record is news. */
  ghost predicate NewsSince(rs: seq<Record>, n: nat) {
    forall i :: n <= i < |rs| ==> NewsAt(rs, i)
  }

  ghost predicate NewsAt(rs: seq<Record>, i: nat)
    requires i < |rs|
  {
    IsNews(Replay(rs[..i]), rs[i])
  }

  /** Memory equals replay, and no record since record n repeats an earlier one. */
  ghost predicate Sound(s: Sys, n: nat) { InSync(s) && NewsSince(s.log, n) }

  lemma NewsOneMore(rs: seq<Record>, r: Record, n: nat)
    requires NewsSince(rs, n) && IsNews(Replay(rs), r)
    ensures NewsSince(rs + [r], n)
  {
    var all := rs + [r];
    forall i | n <= i < |all| ensures NewsAt(all, i) {
      if i < |rs| {
        assert NewsAt(rs, i) && all[..i] == rs[..i];
      } else {
        assert all[..i] == rs;
      }
    }
  }

  lemma Emit(s: Sys, r: Record, view: View, n: nat)
    requires Sound(s, n) && IsNews(s.view, r)
    requires var learned := Learn(s.view, r);
             learned.decisions == view.decisions && learned.contracts == view.contracts && learned.alarms == view.alarms
    ensures Sound(Sys(view, s.log + [r]), n)
  {
    ReplayOneMore(s.log, r);
    NewsOneMore(s.log, r, n);
  }

  lemma RaiseSound(s: Sys, field: string, epoch: string, generation: Option<string>, recorded: string,
                   observed: string, n: nat)
    requires Sound(s, n)
    ensures Sound(Raise(s, field, epoch, generation, recorded, observed), n)
  {
    var r := AlarmRecord(field, epoch, generation, recorded, observed);
    var after := Raise(s, field, epoch, generation, recorded, observed);
    ReadAlarm(field, epoch, generation, recorded, observed);
    if after != s {
      Emit(s, r, after.view, n);
    }
  }

  lemma SeeGenerationSound(s: Sys, g: Generation, n: nat)
    requires Sound(s, n)
    ensures Sound(SeeGeneration(s, g), n)
  {
    if g.promoted.Some? {
      if g.key !in s.view.decisions {
        ReadDecision(g.key, g.promoted.value);
        Emit(s, DecisionRecord(g.key, g.promoted.value), SeeGeneration(s, g).view, n);
      } else {
        RaiseSound(s, DECISION, g.key.epoch, Some(g.key.generation),
                   Label(s.view.decisions[g.key]), Label(g.promoted.value), n);
      }
    }
  }

  lemma {:induction false} SeeAllSound(s: Sys, gs: seq<Generation>, n: nat)
    requires Sound(s, n)
    ensures Sound(SeeAll(s, gs), n)
  {
    if gs != [] {
      SeeAllSound(s, gs[..|gs| - 1], n);
      SeeGenerationSound(SeeAll(s, gs[..|gs| - 1]), gs[|gs| - 1], n);
    }
  }

  lemma {:induction false} RaiseAbsentSound(s: Sys, field: string, was: set<Absence>, ms: seq<Missing>, n: nat)
    requires Sound(s, n)
    ensures Sound(RaiseAbsent(s, field, was, ms), n)
  {
    if ms != [] {
      var m := ms[|ms| - 1];
      RaiseAbsentSound(s, field, was, ms[..|ms| - 1], n);
      RaiseSound(RaiseAbsent(s, field, was, ms[..|ms| - 1]), field, m.epoch, m.generation, m.recorded, ABSENT, n);
    }
  }

  lemma DecisionsSound(s: Sys, gs: seq<Generation>, order: seq<GenKey>, n: nat)
    requires Sound(s, n)
    ensures Sound(DecisionsStep(s, gs, order), n)
  {
    var seen := SeeAll(s, gs);
    SeeAllSound(s, gs, n);
    RaiseAbsentSound(seen, DECISION, seen.view.absent, MissingOf(seen.view, order), n);
  }

  lemma SeeContractSound(s: Sys, epoch: string, hash: string, n: nat)
    requires Sound(s, n)
    ensures Sound(SeeContract(s, epoch, hash), n)
  {
    if hash != "" {
      if epoch !in s.view.contracts {
        ReadContract(epoch, hash);
        Emit(s, ContractRecord(epoch, hash), SeeContract(s, epoch, hash).view, n);
      } else {
        RaiseSound(s, CONTRACT, epoch, None, s.view.contracts[epoch], hash, n);
      }
    }
  }

  lemma {:induction false} SeeEpochsSound(s: Sys, es: seq<EpochHash>, n: nat)
    requires Sound(s, n)
    ensures Sound(SeeEpochs(s, es), n)
  {
    if es != [] {
      var e := es[|es| - 1];
      SeeEpochsSound(s, es[..|es| - 1], n);
      if e.Stated() {
        SeeContractSound(SeeEpochs(s, es[..|es| - 1]), e.epoch, e.hash.value, n);
      }
    }
  }

  lemma ContractsSound(s: Sys, es: seq<EpochHash>, n: nat)
    requires Sound(s, n)
    ensures Sound(ContractsStep(s, es), n)
  {
    var seen := SeeEpochs(s, es);
    SeeEpochsSound(s, es, n);
    RaiseAbsentSound(seen, CONTRACT, seen.view.absent, MissingEpochs(s, es), n);
  }

  // ---- whole runs ---------------------------------------------------------

  /** Ticks, records of other kinds by other parts, and restarts. */
  datatype Event =
    | Decisions(gs: seq<Generation>, order: seq<GenKey>)
    | Contracts(es: seq<EpochHash>)
    | Other(r: Record)
    | Restart

  predicate Foreign(r: Record) {
    !r.kind.DecisionObserved? && !r.kind.ContractChange? && !r.kind.HistoryChanged?
  }

  function Step(s: Sys, e: Event): Sys {
    match e
    case Decisions(gs, order) => DecisionsStep(s, gs, order)
    case Contracts(es) => ContractsStep(s, es)
    case Other(r) => if Foreign(r) then s.(log := s.log + [r]) else s
    case Restart => s.(view := Replay(s.log))
  }

  function Run(s: Sys, es: seq<Event>): Sys {
    if es == [] then s else Step(Run(s, es[..|es| - 1]), es[|es| - 1])
  }

  lemma StepSound(s: Sys, e: Event, n: nat)
    requires Sound(s, n)
    ensures Sound(Step(s, e), n)
  {
    match e
    case Decisions(gs, order) => DecisionsSound(s, gs, order, n);
    case Contracts(hs) => ContractsSound(s, hs, n);
    case Other(r) => if Foreign(r) { Emit(s, r, s.view, n); }
    case Restart =>
  }

  /** Over any run from any loaded ledger, restarts included, the observer
      remembers exactly what the ledger replays to, and no record it adds repeats
      one before it. */
  lemma {:induction false} MemoryEqualsReplay(s: Sys, es: seq<Event>)
    requires InSync(s)
    ensures Sound(Run(s, es), |s.log|)
  {
    if es != [] {
      MemoryEqualsReplay(s, es[..|es| - 1]);
      StepSound(Run(s, es[..|es| - 1]), es[|es| - 1], |s.log|);
    }
  }

  /** Replay keeps the first value: later records never change a recorded
      decision or contract hash, and alarms only accumulate. */
  ghost predicate Extends(v: View, w: View) {
    && (forall k :: k in v.decisions ==> k in w.decisions && w.decisions[k] == v.decisions[k])
    && (forall e :: e in v.contracts ==> e in w.contracts && w.contracts[e] == v.contracts[e])
    && v.alarms <= w.alarms
  }

  lemma {:induction false} ReplayExtends(rs: seq<Record>, n: nat)
    requires n <= |rs|
    ensures Extends(Replay(rs[..n]), Replay(rs))
    decreases |rs| - n
  {
    if n == |rs| {
      assert rs[..n] == rs;
    } else {
      assert rs[..n + 1][..n] == rs[..n];
      ReplayExtends(rs, n + 1);
    }
  }

  /** A record added since record n repeats no record before it, an older one
      included: each generation's decision, each epoch's hash and each distinct
      alarm is recorded at most once more. */
  lemma RecordedOnce(rs: seq<Record>, n: nat, i: nat, j: nat)
    requires NewsSince(rs, n) && i < j < |rs| && n <= j && rs[i].kind == rs[j].kind
    ensures rs[i].kind == DecisionObserved ==> KeyOf(rs[i]) != KeyOf(rs[j])
    ensures rs[i].kind == ContractChange && TextAt(rs[i], CONTRACT) != "" ==>
              TextAt(rs[i], EPOCH) != TextAt(rs[j], EPOCH)
    ensures rs[i].kind == HistoryChanged ==> AlarmOf(rs[i]) != AlarmOf(rs[j])
  {
    assert NewsAt(rs, j);
    assert rs[..j][..i + 1] == rs[..i + 1] && rs[..i + 1][..i] == rs[..i];
    ReplayExtends(rs[..j], i + 1);
  }

  // ---- when appends are lost ----------------------------------------------

  /** `a` is `b` with some records left out. */
  ghost predicate Thinned(a: seq<Record>, b: seq<Record>)
    decreases |b|
  {
    if b == [] then a == []
    else
      var n := |b| - 1;
      || Thinned(a, b[..n])
      || (a != [] && a[|a| - 1] == b[n] && Thinned(a[..|a| - 1], b[..n]))
  }

  lemma {:induction false} ThinnedSelf(a: seq<Record>)
    ensures Thinned(a, a)
  {
    if a != [] {
      ThinnedSelf(a[..|a| - 1]);
    }
  }

  /** One record more, which may or may not be left out. */
  lemma ThinnedMore(a: seq<Record>, b: seq<Record>, r: Record)
    requires Thinned(a, b)
    ensures Thinned(a, b + [r]) && Thinned(a + [r], b + [r])
  {
    assert (b + [r])[..|b|] == b && (a + [r])[..|a|] == a;
  }

  /** A replay that knows of no more than another. */
  ghost predicate Fewer(v: View, w: View) {
    v.decisions.Keys <= w.decisions.Keys && v.contracts.Keys <= w.contracts.Keys && v.alarms <= w.alarms
  }

  lemma LearnFewer(v: View, w: View, r: Record)
    requires Fewer(v, w)
    ensures Fewer(v, Learn(w, r)) && Fewer(Learn(v, r), Learn(w, r))
    ensures IsNews(w, r) ==> IsNews(v, r)
  {
  }

  /** Leaving records out keeps news news: whatever is lost on the way to the file,
      the file repeats nothing. */
  lemma {:induction false} ThinnedNews(a: seq<Record>, b: seq<Record>, n: nat)
    requires Thinned(a, b) && NewsSince(b, n)
    ensures |a| <= |b| && Fewer(Replay(a), Replay(b)) && NewsSince(a, n)
    decreases |b|
  {
    if b != [] {
      var m := |b| - 1;
      var b', r := b[..m], b[m];
      NewsBefore(b, n);
      if Thinned(a, b') {
        ThinnedNews(a, b', n);
        LearnFewer(Replay(a), Replay(b'), r);
      } else {
        var a' := a[..|a| - 1];
        ThinnedNews(a', b', n);
        LearnFewer(Replay(a'), Replay(b'), r);
        assert a == a' + [r];
        if |a'| >= n {
          assert NewsAt(b, m);
          NewsOneMore(a', r, n);
        }
      }
    }
  }

  lemma NewsBefore(rs: seq<Record>, n: nat)
    requires rs != [] && NewsSince(rs, n)
    ensures NewsSince(rs[..|rs| - 1], n)
  {
    var init := rs[..|rs| - 1];
    forall i | n <= i < |init| ensures NewsAt(init, i) {
      assert NewsAt(rs, i) && init[..i] == rs[..i];
    }
  }

  /** The decision first recorded for a generation and the hash first recorded for
      an epoch stay the reference over any further run, restarts included, and no
      alarm is forgotten. */
  lemma ReferenceStays(s: Sys, es: seq<Event>)
    requires InSync(s)
    ensures Extends(s.view, Run(s, es).view)
  {
    MemoryEqualsReplay(s, es);
    LogGrows(s, es);
    ReplayExtends(Run(s, es).log, |s.log|);
  }

  lemma {:induction false} LogGrows(s: Sys, es: seq<Event>)
    ensures |s.log| <= |Run(s, es).log| && Run(s, es).log[..|s.log|] == s.log
  {
    if es != [] {
      var before, e := Run(s, es[..|es| - 1]), es[|es| - 1];
      LogGrows(s, es[..|es| - 1]);
      StepGrows(before, e);
      assert Step(before, e).log[..|s.log|] == Step(before, e).log[..|before.log|][..|s.log|];
    }
  }

  lemma StepGrows(s: Sys, e: Event)
    ensures |s.log| <= |Step(s, e).log| && Step(s, e).log[..|s.log|] == s.log
  {
    match e
    case Decisions(gs, order) =>
      var seen := SeeAll(s, gs);
      SeeAllGrows(s, gs);
      RaiseAbsentGrows(seen, DECISION, seen.view.absent, MissingOf(seen.view, order));
      PrefixTrans(s.log, seen.log, Step(s, e).log);
    case Contracts(es) =>
      var seen := SeeEpochs(s, es);
      SeeEpochsGrows(s, es);
      RaiseAbsentGrows(seen, CONTRACT, seen.view.absent, MissingEpochs(s, es));
      PrefixTrans(s.log, seen.log, Step(s, e).log);
    case Other(r) =>
    case Restart =>
  }

  lemma PrefixTrans(a: seq<Record>, b: seq<Record>, c: seq<Record>)
    requires |a| <= |b| <= |c| && b[..|a|] == a && c[..|b|] == b
    ensures c[..|a|] == a
  {
    assert c[..|a|] == c[..|b|][..|a|];
  }

  lemma {:induction false} SeeAllGrows(s: Sys, gs: seq<Generation>)
    ensures |s.log| <= |SeeAll(s, gs).log| && SeeAll(s, gs).log[..|s.log|] == s.log
  {
    if gs != [] {
      SeeAllGrows(s, gs[..|gs| - 1]);
    }
  }

  lemma {:induction false} SeeEpochsGrows(s: Sys, es: seq<EpochHash>)
    ensures |s.log| <= |SeeEpochs(s, es).log| && SeeEpochs(s, es).log[..|s.log|] == s.log
  {
    if es != [] {
      SeeEpochsGrows(s, es[..|es| - 1]);
    }
  }

  lemma {:induction false} RaiseAbsentGrows(s: Sys, field: string, was: set<Absence>, ms: seq<Missing>)
    ensures |s.log| <= |RaiseAbsent(s, field, was, ms).log| && RaiseAbsent(s, field, was, ms).log[..|s.log|] == s.log
  {
    if ms != [] {
      RaiseAbsentGrows(s, field, was, ms[..|ms| - 1]);
    }
  }
}
