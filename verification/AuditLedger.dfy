/** The ledger as the object the supervisor holds, each method proved against the
    state machine of LedgerState. */
module AuditLedger {
  import opened Common
  import opened LedgerFormat
  import opened LedgerChain
  import opened LedgerFile
  import opened LedgerState
  import opened LedgerRecovery
  import opened LedgerObserver

  /** The file, which others can also change. */
  class LedgerDisk {
    var content: Option<Text>

    constructor (content: Option<Text>)
      ensures this.content == content
    {
      this.content := content;
    }
  }

  /** `repair_torn_tail`, lines 467-488. */
  method RepairTornTail(env: Env, disk: LedgerDisk, truncates: bool) returns (removed: Text)
    modifies disk
    ensures removed == Removed(env, old(disk.content), truncates)
    ensures disk.content == if removed == [] then old(disk.content) else Some(Repaired(env, old(BytesOf(disk.content))))
  {
    if disk.content.None? {
      return [];
    }
    var bytes := disk.content.value;
    var start := FindTail(bytes);
    if start.None? || env.codec.parse(TrimEnd(bytes[start.value..])).Some? || !truncates {
      return [];
    }
    removed := bytes[start.value..];
    disk.content := Some(bytes[..start.value]);
  }

  /** `seed_tail`, lines 245-260. */
  method SeedFrom(env: Env, bytes: Text) returns (next: U64, prev: Text)
    ensures next == NextOf(Records(env, bytes)) && prev == EndOf(Records(env, bytes))
  {
    next, prev := 0, GENESIS;
    var lines := Lines(bytes);
    for n := 0 to |lines|
      invariant next == NextOf(Parsed(env, lines[..n])) && prev == EndOf(Parsed(env, lines[..n]))
    {
      assert lines[..n + 1][..n] == lines[..n];
      var rec := env.codec.parse(lines[n]);
      if rec.Some? {
        next, prev := (rec.value.number + 1) % U64_LIMIT, rec.value.digest;
      }
    }
    assert lines[..|lines|] == lines;
  }

  /** `read_records`, lines 869-875. */
  method ReadRecords(env: Env, bytes: Text) returns (rs: seq<Record>)
    ensures rs == History(env, bytes)
  {
    rs := [];
    var lines := Lines(bytes);
    for n := 0 to |lines|
      invariant rs == ReadAll(env, lines[..n])
    {
      assert lines[..n + 1][..n] == lines[..n];
      var r := env.codec.read(lines[n]);
      if r.Some? {
        rs := rs + [r.value];
      }
    }
    assert lines[..|lines|] == lines;
  }

  /** The reading half of `open`, lines 202-220. */
  method LoadFile(env: Env, disk: LedgerDisk, truncates: bool)
    returns (removed: Text, next: U64, prev: Text, records: seq<Record>)
    modifies disk
    ensures removed == Removed(env, old(disk.content), truncates)
    ensures Ledger(disk.content, next, prev, RecordedBreaks(records)) == Loaded(env, old(disk.content), truncates)
    ensures records == History(env, BytesOf(disk.content))
    ensures env.codec.SpeaksText() ==> env.codec.valid(prev)
  {
    removed := RepairTornTail(env, disk, truncates);
    var bytes := BytesOf(disk.content);
    records := ReadRecords(env, bytes);
    next, prev := SeedFrom(env, bytes);
    if env.codec.SpeaksText() {
      EndValid(env, Lines(bytes));
    }
  }

  /** The kinds the observer reads back. */
  predicate Replayed(kind: Kind) {
    kind.DecisionObserved? || kind.ContractChange? || kind.HistoryChanged?
  }

  /** However an append ends, the file only grows. */
  lemma {:induction false} AppendGrows(env: Env, st: Ledger, kind: Kind, payload: Json, io: Io)
    ensures st.Bytes() <= AppendStep(env, st, kind, payload, io).Bytes()
  {
  }

  /** The file replays to what was sent, less what was lost. */
  ghost predicate KeptBy(env: Env, st: Ledger, sent: seq<Record>, lost: bool) {
    var log := Replays(env, st.file);
    env.codec.valid(st.prev) && Thinned(log, sent) && (lost || log == sent)
  }

  /** The ghost record after an append: a record that matters is always noted, any
      other only if it landed. */
  ghost function SentAfter(env: Env, was: Ledger, now: Ledger, r: Record, sent: seq<Record>): seq<Record> {
    if Replayed(r.kind) || Replays(env, now.file) != Replays(env, was.file) then sent + [r] else sent
  }

  lemma ValidAfter(env: Env, was: Ledger, kind: Kind, payload: Json, io: Io)
    requires env.Lawful() && env.codec.valid(was.prev)
    ensures env.codec.valid(AppendStep(env, was, kind, payload, io).prev)
  {
    AppendHistory(env, was, kind, payload, io);
  }

  lemma KeptAfter(env: Env, was: Ledger, now: Ledger, kind: Kind, payload: Json, io: Io, sent: seq<Record>, lost: bool)
    requires env.Lawful() && KeptBy(env, was, sent, lost) && now == AppendStep(env, was, kind, payload, io)
    ensures KeptBy(env, now, SentAfter(env, was, now, Record(kind, payload), sent),
                   lost || (Replayed(kind) && !Persists(env, was, kind, payload, io)))
  {
    AppendHistory(env, was, kind, payload, io);
    ThinnedMore(Replays(env, was.file), sent, Record(kind, payload));
  }

  /** The records a file replays to. */
  function Replays(env: Env, file: Option<Text>): seq<Record> {
    History(env, BytesOf(file))
  }

  // ---- what was handed over -----------------------------------------------

  /** One append: the ledger before it, its record and how the write ended. `own` is
      false of the breaks the ledger records about itself. */
  datatype Handed = Handed(was: Ledger, r: Record, io: Io, own: bool)
  {
    function After(env: Env): Ledger {
      AppendStep(env, was, r.kind, r.payload, io)
    }

    /** A decision, contract hash or alarm that did not reach the disk. */
    predicate Lost(env: Env) {
      Replayed(r.kind) && !Persists(env, was, r.kind, r.payload, io)
    }
  }

  ghost predicate SomeLost(env: Env, trail: seq<Handed>) {
    exists i :: 0 <= i < |trail| && trail[i].Lost(env)
  }

  /** What the file replayed to when it was opened and the records handed over
      since, less those of other kinds that were lost. */
  ghost function SentBy(env: Env, origin: Ledger, trail: seq<Handed>): seq<Record> {
    if trail == [] then Replays(env, origin.file)
    else
      var h := trail[|trail| - 1];
      SentAfter(env, h.was, h.After(env), h.r, SentBy(env, origin, trail[..|trail| - 1]))
  }

  predicate SameFile(a: Ledger, b: Ledger) {
    a.file == b.file && a.next == b.next && a.prev == b.prev
  }

  /** The appends of the trail lead from the ledger as opened to `now`, each from
      where the one before ended. The n own ones ended as ios says, in order. */
  ghost predicate Traced(env: Env, ios: nat -> Io, origin: Ledger, trail: seq<Handed>, now: Ledger, n: nat) {
    if trail == [] then SameFile(now, origin) && n == 0
    else
      var h, before := trail[|trail| - 1], trail[..|trail| - 1];
      && SameFile(now, h.After(env))
      && if h.own then n > 0 && h.io == ios(n - 1) && Traced(env, ios, origin, before, h.was, n - 1)
         else !Replayed(h.r.kind) && Traced(env, ios, origin, before, h.was, n)
  }

  lemma {:induction false} TrailGrows(env: Env, origin: Ledger, trail: seq<Handed>, h: Handed)
    ensures SentBy(env, origin, trail + [h]) == SentAfter(env, h.was, h.After(env), h.r, SentBy(env, origin, trail))
    ensures SomeLost(env, trail + [h]) <==> SomeLost(env, trail) || h.Lost(env)
  {
    var more := trail + [h];
    assert more[..|trail|] == trail && more[|trail|] == h;
    if h.Lost(env) {
      assert more[|trail|].Lost(env);
    }
    if SomeLost(env, trail) {
      var i :| 0 <= i < |trail| && trail[i].Lost(env);
      assert more[i].Lost(env);
    }
  }

  lemma {:induction false} TracedGrows(env: Env, ios: nat -> Io, origin: Ledger, trail: seq<Handed>, h: Handed,
                                       now: Ledger, n: nat)
    requires Traced(env, ios, origin, trail, h.was, n) && SameFile(now, h.After(env))
    requires if h.own then h.io == ios(n) else !Replayed(h.r.kind)
    ensures Traced(env, ios, origin, trail + [h], now, if h.own then n + 1 else n)
  {
    var more := trail + [h];
    assert more[..|more| - 1] == trail && more[|more| - 1] == h;
  }

  /** What one more append does to what was sent, to what was lost and to the trail. */
  ghost predicate Entered(env: Env, ios: nat -> Io, origin: Ledger, trail: seq<Handed>, h: Handed,
                          now: Ledger, n: nat)
  {
    var more, was, sent := trail + [h], SentBy(env, origin, trail), SentBy(env, origin, trail + [h]);
    && (sent == was + [h.r] || (sent == was && !Replayed(h.r.kind)))
    && (SomeLost(env, more) <==> SomeLost(env, trail) || h.Lost(env))
    && (Traced(env, ios, origin, trail, h.was, n) ==> Traced(env, ios, origin, more, now, if h.own then n + 1 else n))
  }

  lemma {:induction false} Enter(env: Env, ios: nat -> Io, origin: Ledger, trail: seq<Handed>, h: Handed, now: Ledger,
                                 n: nat)
    requires now == h.After(env) && if h.own then h.io == ios(n) else !Replayed(h.r.kind)
    ensures Entered(env, ios, origin, trail, h, now, n)
  {
    TrailGrows(env, origin, trail, h);
    if Traced(env, ios, origin, trail, h.was, n) {
      TracedGrows(env, ios, origin, trail, h, now, n);
    }
  }

  lemma {:induction false} KeptEntered(env: Env, origin: Ledger, trail: seq<Handed>, h: Handed, now: Ledger)
    requires now == h.After(env)
    ensures env.Lawful() && env.codec.valid(h.was.prev) ==> env.codec.valid(now.prev)
    ensures env.Lawful() && KeptBy(env, h.was, SentBy(env, origin, trail), SomeLost(env, trail)) ==>
              KeptBy(env, now, SentBy(env, origin, trail + [h]), SomeLost(env, trail + [h]))
  {
    TrailGrows(env, origin, trail, h);
    if env.Lawful() && env.codec.valid(h.was.prev) {
      ValidAfter(env, h.was, h.r.kind, h.r.payload, h.io);
      if KeptBy(env, h.was, SentBy(env, origin, trail), SomeLost(env, trail)) {
        KeptAfter(env, h.was, now, h.r.kind, h.r.payload, h.io, SentBy(env, origin, trail), SomeLost(env, trail));
      }
    }
  }

  /** Breaks play no part in a trail. */
  lemma {:induction false} TracedSame(env: Env, ios: nat -> Io, origin: Ledger, trail: seq<Handed>, now: Ledger,
                                      breaks: set<Option<nat>>, n: nat)
    ensures Traced(env, ios, origin, trail, now, n) <==> Traced(env, ios, origin, trail, now.(breaks := breaks), n)
  {
  }

  /** Every link is the one the ledger was opened with or a digest. */
  lemma {:induction false} LinkedFrom(env: Env, ios: nat -> Io, origin: Ledger, trail: seq<Handed>, now: Ledger, n: nat)
    requires env.PlainSeals() && Traced(env, ios, origin, trail, now, n)
    ensures LinkOf(origin, now)
  {
    if trail != [] {
      var h := trail[|trail| - 1];
      LinkedFrom(env, ios, origin, trail[..|trail| - 1], h.was, if h.own then n - 1 else n);
    }
  }

  predicate LinkOf(origin: Ledger, st: Ledger) {
    st.prev == origin.prev || |st.prev| == 64
  }

  /** Every write succeeds, and no line for a record of `sent` is longer than `longest`. */
  ghost predicate Smooth(env: Env, ios: nat -> Io, n: nat, origin: Ledger, sent: seq<Record>, longest: nat) {
    && (forall i :: 0 <= i < n ==> ios(i).outcome.Done?)
    && (forall i, st, r :: 0 <= i < n && LinkOf(origin, st) && r in sent ==>
          |NextText(env, st, r.kind, r.payload, ios(i).ts)| <= longest)
  }

  /** With room for the longest line, a successful write lands. */
  lemma Landed(env: Env, ios: nat -> Io, n: nat, origin: Ledger, sent: seq<Record>, longest: nat, h: Handed, k: nat)
    requires Smooth(env, ios, n, origin, sent, longest) && k < n && h.io == ios(k) && h.r in sent
    requires LinkOf(origin, h.was) && |h.was.Bytes()| + longest + 2 <= MAX_FILE
    ensures Persists(env, h.was, h.r.kind, h.r.payload, h.io)
  {
    assert |NextText(env, h.was, h.r.kind, h.r.payload, ios(k).ts)| <= longest;
  }

  /** What is known of an append of the trail when the file has reached `bytes`. */
  ghost predicate Known(ios: nat -> Io, n: nat, origin: Ledger, sent: seq<Record>, bytes: Text, h: Handed) {
    && LinkOf(origin, h.was) && h.was.Bytes() <= bytes
    && (Replayed(h.r.kind) ==> h.r in sent && exists k :: 0 <= k < n && h.io == ios(k))
  }

  lemma KnownLater(ios: nat -> Io, n: nat, origin: Ledger, sent: seq<Record>, bytes: Text, h: Handed,
                   n': nat, sent': seq<Record>, bytes': Text)
    requires Known(ios, n, origin, sent, bytes, h) && n <= n' && sent <= sent' && bytes <= bytes'
    ensures Known(ios, n', origin, sent', bytes', h)
  {
    if Replayed(h.r.kind) {
      var j :| 0 <= j < |sent| && sent[j] == h.r;
      assert sent'[j] == h.r;
    }
  }

  lemma {:induction false} KnownAt(env: Env, ios: nat -> Io, origin: Ledger, trail: seq<Handed>, now: Ledger, n: nat,
                                   i: nat)
    requires env.PlainSeals() && Traced(env, ios, origin, trail, now, n) && i < |trail|
    ensures Known(ios, n, origin, SentBy(env, origin, trail), now.Bytes(), trail[i])
  {
    var h, before := trail[|trail| - 1], trail[..|trail| - 1];
    var m := if h.own then n - 1 else n;
    AppendGrows(env, h.was, h.r.kind, h.r.payload, h.io);
    if i == |before| {
      LinkedFrom(env, ios, origin, before, h.was, m);
    } else {
      KnownAt(env, ios, origin, before, h.was, m, i);
      KnownLater(ios, m, origin, SentBy(env, origin, before), h.was.Bytes(), before[i],
                 n, SentBy(env, origin, trail), now.Bytes());
    }
  }

  /** With every write succeeding and room in the file for one more line, nothing
      was lost. */
  lemma NothingLost(env: Env, ios: nat -> Io, origin: Ledger, trail: seq<Handed>, now: Ledger, n: nat, longest: nat)
    requires env.PlainSeals() && Traced(env, ios, origin, trail, now, n)
    requires Smooth(env, ios, n, origin, SentBy(env, origin, trail), longest)
    requires |now.Bytes()| + longest + 2 <= MAX_FILE
    ensures !SomeLost(env, trail)
  {
    forall i | 0 <= i < |trail| ensures !trail[i].Lost(env) {
      KnownAt(env, ios, origin, trail, now, n, i);
      LandedIfKnown(env, ios, n, origin, SentBy(env, origin, trail), now.Bytes(), longest, trail[i]);
    }
  }

  lemma LandedIfKnown(env: Env, ios: nat -> Io, n: nat, origin: Ledger, sent: seq<Record>, bytes: Text, longest: nat,
                      h: Handed)
    requires Known(ios, n, origin, sent, bytes, h) && Smooth(env, ios, n, origin, sent, longest)
    requires |bytes| + longest + 2 <= MAX_FILE
    ensures !h.Lost(env)
  {
    if Replayed(h.r.kind) {
      var k :| 0 <= k < n && h.io == ios(k);
      Landed(env, ios, n, origin, sent, longest, h, k);
    }
  }

  class AuditLedger {
    const env: Env
    const disk: LedgerDisk
    /** How the n-th append ends, and the clock it reads. */
    const ios: nat -> Io
    var appends: nat
    var next: U64
    var prev: Text
    var breaks: set<Option<nat>>
    /** The bytes removed when the ledger was opened. */
    var partialFinalLine: Option<nat>
    /** The ledger as opened, and every append since. */
    ghost var origin: Ledger
    ghost var trail: seq<Handed>

    function State(): Ledger
      reads this, disk
    {
      Ledger(disk.content, next, prev, breaks)
    }

    ghost function Log(): seq<Record>
      reads this, disk
    {
      Replays(env, disk.content)
    }

    ghost function Sent(): seq<Record>
      reads this
    {
      SentBy(env, origin, trail)
    }

    /** Whether a decision, contract hash or alarm was lost. */
    ghost predicate Lost()
      reads this
    {
      SomeLost(env, trail)
    }

    /** The file replays to what was sent, less what was lost. */
    ghost predicate Kept()
      reads this, disk
    {
      KeptBy(env, State(), Sent(), Lost())
    }

    /** The trail is what this process did to the file it origin. */
    ghost predicate Recounts()
      reads this, disk
    {
      Traced(env, ios, origin, trail, State(), appends)
    }

    ghost predicate Faithful()
      reads this, disk
    {
      Kept() && Recounts()
    }

    /** Lines 197-240. */
    constructor Open(env: Env, disk: LedgerDisk, ios: nat -> Io, io: OpenIo)
      modifies disk
      ensures this.env == env && this.disk == disk && this.ios == ios
      ensures State() == OpenStep(env, old(disk.content), io)
      ensures partialFinalLine.Some? <==> Removed(env, old(disk.content), io.truncates) != []
      ensures appends == 0 && origin == State() && trail == [] && !Lost() && Sent() == Log()
      ensures env.Lawful() ==> Faithful()
    {
      this.env, this.disk, this.ios, appends := env, disk, ios, 0;
      var removed, cursor, link, records := LoadFile(env, disk, io.truncates);
      next, prev, breaks := cursor, link, RecordedBreaks(records);
      partialFinalLine := if removed == [] then None else Some(|removed|);
      new;
      Finish(removed, io.repair, io.check);
      origin, trail := State(), [];
      ThinnedSelf(Log());
    }

    /** The end of `open`: record a removed tail, then check the chain. */
    method Finish(removed: Text, repair: Io, check: Io)
      modifies this, disk
      ensures State() == Finished(env, old(State()), removed, repair, check)
      ensures partialFinalLine == old(partialFinalLine) && appends == old(appends)
      ensures env.Lawful() && env.codec.valid(old(prev)) ==> env.codec.valid(prev)
    {
      if removed != [] {
        var _ := AppendWith(LedgerIntegrity, TornPayload(env.hash, removed), repair, false);
      }
      var _ := CheckWith(check);
    }

    /** `write_line`, lines 334-358; `text` ends before its newline. */
    method WriteLine(text: Text, outcome: Outcome) returns (ok: bool)
      modifies disk
      ensures var was := old(BytesOf(disk.content));
              var whole := Appended(was, text);
              && (ok <==> outcome.Done? && |whole| <= MAX_FILE)
              && disk.content ==
                 if ok then Some(whole)
                 else if outcome.Refused? then old(disk.content)
                 else if outcome.Torn? then Some(whole[..Least(|was| + outcome.kept, |whole|)])
                 else Some(was)
    {
      if outcome.Refused? {
        return false;
      }
      var was := BytesOf(disk.content);
      var whole := was;
      if |was| > 0 && was[|was| - 1] != NEWLINE {
        whole := whole + [NEWLINE];
      }
      whole := whole + text + [NEWLINE];
      ok := outcome.Done? && |whole| <= MAX_FILE;
      if ok {
        disk.content := Some(whole);
      } else if outcome.Torn? {
        disk.content := Some(whole[..Least(|was| + outcome.kept, |whole|)]);
      } else {
        disk.content := Some(was);
      }
    }

    /** Lines 275-323, for a given clock reading and write. */
    method WriteNext(kind: Kind, payload: Json, io: Io) returns (digest: Option<Text>)
      modifies this`next, this`prev, disk
      ensures State() == AppendStep(env, old(State()), kind, payload, io)
      ensures digest.Some? <==> Persists(env, old(State()), kind, payload, io)
      ensures digest.Some? ==> digest.value == prev
    {
      var line := NextLine(env, State(), kind, payload, io.ts);
      var ok := WriteLine(env.codec.write(line), io.outcome);
      if ok {
        next, prev := (next + 1) % U64_LIMIT, line.digest;
        digest := Some(line.digest);
      } else {
        digest := None;
      }
    }

    /** The same, entered in the trail. */
    method AppendWith(kind: Kind, payload: Json, io: Io, ghost own: bool) returns (digest: Option<Text>)
      modifies this, disk
      ensures State() == AppendStep(env, old(State()), kind, payload, io)
      ensures digest.Some? <==> Persists(env, old(State()), kind, payload, io)
      ensures digest.Some? ==> digest.value == prev
      ensures partialFinalLine == old(partialFinalLine) && appends == old(appends) && origin == old(origin)
      ensures trail == old(trail) + [Handed(old(State()), Record(kind, payload), io, own)]
      ensures env.Lawful() && env.codec.valid(old(prev)) ==> env.codec.valid(prev)
      ensures env.Lawful() && old(Kept()) ==> Kept()
    {
      ghost var h, before := Handed(State(), Record(kind, payload), io, own), trail;
      digest := WriteNext(kind, payload, io);
      trail := trail + [h];
      KeptEntered(env, origin, before, h, State());
    }

    /** A record that matters is sent whether or not it lands, any other if it lands. */
    method Append(kind: Kind, payload: Json) returns (digest: Option<Text>)
      modifies this, disk
      ensures State() == AppendStep(env, old(State()), kind, payload, ios(old(appends)))
      ensures digest.Some? <==> Persists(env, old(State()), kind, payload, ios(old(appends)))
      ensures digest.Some? ==> digest.value == prev
      ensures partialFinalLine == old(partialFinalLine) && appends == old(appends) + 1 && origin == old(origin)
      ensures trail == old(trail) + [Handed(old(State()), Record(kind, payload), ios(old(appends)), true)]
      ensures Sent() == old(Sent()) + [Record(kind, payload)] || (Sent() == old(Sent()) && !Replayed(kind))
      ensures Lost() <==> old(Lost()) || (Replayed(kind) && digest.None?)
      ensures env.Lawful() && old(Kept()) ==> Kept()
      ensures old(Recounts()) ==> Recounts()
    {
      ghost var h, before := Handed(State(), Record(kind, payload), ios(appends), true), trail;
      digest := AppendWith(kind, payload, ios(appends), true);
      Enter(env, ios, origin, before, h, State(), appends);
      appends := appends + 1;
    }

    /** Lines 369-395. */
    method Verify() returns (firstBreak: Option<nat>)
      ensures firstBreak == FirstBreak(env, State())
    {
      var report := VerifyChain(env, BytesOf(disk.content));
      match report
      case Bad(k) => firstBreak := Some(k % U64_LIMIT);
      case Good(n, _) => firstBreak := if n < next then Some(n) else None;
    }

    /** Lines 404-434. */
    method CheckWith(io: Io) returns (firstBreak: Option<nat>)
      modifies this, disk
      ensures firstBreak == FirstBreak(env, old(State()))
      ensures State() == CheckStep(env, old(State()), io)
      ensures partialFinalLine == old(partialFinalLine) && appends == old(appends) && origin == old(origin)
      ensures Lost() == old(Lost())
      ensures Sent() == old(Sent()) ||
              (firstBreak.Some? && Sent() == old(Sent()) + [Record(LedgerIntegrity, BreakPayload(firstBreak.value))])
      ensures env.Lawful() && env.codec.valid(old(prev)) ==> env.codec.valid(prev)
      ensures env.Lawful() && old(Kept()) ==> Kept()
      ensures old(Recounts()) ==> Recounts()
    {
      firstBreak := Verify();
      if firstBreak.Some? && firstBreak !in breaks {
        ghost var before := trail;
        breaks := breaks + {firstBreak};
        var payload := BreakPayload(firstBreak.value);
        ghost var h := Handed(State(), Record(LedgerIntegrity, payload), io, false);
        var _ := AppendWith(LedgerIntegrity, payload, io, false);
        TracedSame(env, ios, origin, before, old(State()), breaks, appends);
        Enter(env, ios, origin, before, h, State(), appends);
      }
    }
  }
}
