/** Breaks and written records over whole runs of appends, ticks and restarts. */
module LedgerStanding {
  import opened Common
  import opened LedgerFormat
  import opened LedgerChain
  import opened LedgerFile
  import opened LedgerState
  import opened LedgerRecovery
  import opened LedgerTamper

  /** What the supervisor does between outside edits. */
  datatype Event =
    | Log(kind: Kind, payload: Json, io: Io)
    | Tick(io: Io)
    | Restart(open: OpenIo)

  function Step(env: Env, st: Ledger, e: Event): Ledger {
    match e
    case Log(kind, payload, io) => AppendStep(env, st, kind, payload, io)
    case Tick(io) => CheckStep(env, st, io)
    case Restart(io) => OpenStep(env, st.file, io)
  }

  function Run(env: Env, st: Ledger, es: seq<Event>): Ledger {
    if es == [] then st else Step(env, Run(env, st, es[..|es| - 1]), es[|es| - 1])
  }

  // ---- what the supervisor writes stays unambiguous -----------------------

  /** Every record, and the cursor, is free of separators. */
  ghost predicate Genuine(env: Env, st: Ledger) {
    && Written(Records(env, st.Bytes()))
    && (forall i :: 0 <= i < |Records(env, st.Bytes())| ==> SEPARATOR !in Records(env, st.Bytes())[i].digest)
    && SEPARATOR !in st.prev && env.codec.valid(st.prev)
  }

  /** An append, however it ends, adds its line as a record or adds none. */
  lemma AppendRecords(env: Env, st: Ledger, kind: Kind, payload: Json, io: Io)
    requires env.Lawful() && env.codec.valid(st.prev)
    ensures var after, l := AppendStep(env, st, kind, payload, io), NextLine(env, st, kind, payload, io.ts);
            && (|| Records(env, after.Bytes()) == Records(env, st.Bytes())
                || Records(env, after.Bytes()) == Records(env, st.Bytes()) + [l])
            && (after.prev == st.prev || after.prev == l.digest)
  {
    var after, l := AppendStep(env, st, kind, payload, io), NextLine(env, st, kind, payload, io.ts);
    NextLineLinks(env, st, kind, payload, io.ts);
    if Persists(env, st, kind, payload, io) {
      AppendWrites(env, st, kind, payload, io.ts);
    } else if io.outcome.Torn? {
      TornFile(env, st, kind, payload, io);
      LeftOfLine(env, st.Bytes(), l, after.Bytes());
    } else {
      assert after.Bytes() == st.Bytes();
    }
  }

  lemma AppendGenuine(env: Env, st: Ledger, kind: Kind, payload: Json, io: Io)
    requires env.Lawful() && Genuine(env, st)
    ensures Genuine(env, AppendStep(env, st, kind, payload, io))
  {
    AppendRecords(env, st, kind, payload, io);
    NextLineWritten(env, st, kind, payload, io.ts);
  }

  lemma CheckGenuine(env: Env, st: Ledger, io: Io)
    requires env.Lawful() && Genuine(env, st)
    ensures Genuine(env, CheckStep(env, st, io))
  {
    var found := FirstBreak(env, st);
    if found.Some? && found !in st.breaks {
      AppendGenuine(env, st.(breaks := st.breaks + {found}), LedgerIntegrity, BreakPayload(found.value), io);
    }
  }

  lemma {:induction false} BlanksReadNothing(env: Env, lines: seq<Text>)
    requires env.codec.SkipsBlanks() && AllBlank(lines)
    ensures Parsed(env, lines) == [] && ReadAll(env, lines) == []
  {
    if lines != [] {
      BlanksReadNothing(env, lines[..|lines| - 1]);
      assert Blank(lines[|lines| - 1]);
    }
  }

  lemma OneRead(env: Env, t: Text)
    ensures ReadAll(env, [t]) == ReadLine(env, t)
  {
    assert [t][..0] == [];
  }

  lemma {:induction false} OnlyFirstReads(env: Env, lines: seq<Text>)
    requires env.codec.SkipsBlanks() && lines != []
    requires env.codec.parse(lines[0]) == None && AllBlank(lines[1..])
    ensures Parsed(env, lines) == [] && ReadAll(env, lines) == ReadLine(env, lines[0])
  {
    var t, rest := lines[0], lines[1..];
    assert lines == [t] + rest;
    BlanksReadNothing(env, rest);
    ParsedJoin(env, [t], rest);
    ReadJoin(env, [t], rest);
    OneLine(env, t);
    OneRead(env, t);
  }

  lemma {:induction false} ReadJoin(env: Env, a: seq<Text>, b: seq<Text>)
    ensures ReadAll(env, a + b) == ReadAll(env, a) + ReadAll(env, b)
  {
    if b == [] {
      assert a + b == a;
    } else {
      var n := |b| - 1;
      assert (a + b)[..|a| + n] == a + b[..n];
      ReadJoin(env, a, b[..n]);
    }
  }

  /** What a replay reads of the line a repair would cut off. */
  function TornReads(env: Env, bytes: Text): seq<Record> {
    var torn := TornTail(env, bytes);
    if torn == [] then [] else ReadLine(env, Lines(torn)[0])
  }

  /** A repair takes no record of the chain, and a break the rest shows is the break
      the whole showed. It takes nothing a replay reads exactly when nothing is
      torn or the torn line does not read. */
  lemma RepairTakesNoRecord(env: Env, bytes: Text)
    requires env.codec.Lawful()
    ensures Records(env, Repaired(env, bytes)) == Records(env, bytes)
    ensures History(env, bytes) == History(env, Repaired(env, bytes)) + TornReads(env, bytes)
    ensures History(env, Repaired(env, bytes)) == History(env, bytes) <==>
              TornTail(env, bytes) == [] || env.codec.read(Lines(TornTail(env, bytes))[0]) == None
    ensures Verify(env, Repaired(env, bytes)).Bad? ==> Verify(env, bytes) == Verify(env, Repaired(env, bytes))
  {
    var kept, torn := Repaired(env, bytes), TornTail(env, bytes);
    if torn == [] {
      assert kept == bytes;
    } else {
      RepairRemovesOneLine(env, bytes);
      BodyWalk(env, kept);
      OnlyFirstReads(env, Lines(torn));
      ParsedJoin(env, Body(kept), Lines(torn));
      ReadJoin(env, Body(kept), Lines(torn));
      BadPrefix(env, Body(kept), Lines(torn));
      assert |History(env, bytes)| == |History(env, kept)| + |TornReads(env, bytes)|;
    }
  }

  /** It can take one: a file of one unterminated line that replay reads and the
      chain does not parse. */
  lemma RepairCanTakeAReading(env: Env, t: Text, r: Record)
    requires env.codec.Lawful() && t != [] && !Whitespace(t[0]) && !Whitespace(t[|t| - 1]) && NEWLINE !in t
    requires env.codec.parse(t) == None && env.codec.read(t) == Some(r)
    ensures History(env, t) == [r] && Repaired(env, t) == [] && History(env, Repaired(env, t)) == []
  {
    assert TrimEnd(t) == t && [] + t == t;
    LoneTail(env, [], t);
    SinglePiece(t, NEWLINE);
    RepairTakesNoRecord(env, t);
    assert History(env, t) == History(env, []) + [r];
    var none := Lines([]);
    assert none == [[]] && none[..0] == [] && ReadAll(env, none) == [];
  }

  lemma BadPrefix(env: Env, a: seq<Text>, b: seq<Text>)
    ensures Walk(env, a).Bad? ==> Walk(env, a + b) == Walk(env, a)
  {
    assert (a + b)[..|a|] == a;
    if Walk(env, a).Bad? {
      BadStays(env, a + b, |a|);
    }
  }

  /** What `open` starts from, read off the file it keeps. */
  lemma LoadedFrom(env: Env, file: Option<Text>, truncates: bool)
    ensures var st := Loaded(env, file, truncates);
            && st.Bytes() == (if Removed(env, file, truncates) == [] then BytesOf(file)
                              else Repaired(env, BytesOf(file)))
            && st.breaks == RecordedBreaks(History(env, st.Bytes()))
            && st.prev == EndOf(Records(env, st.Bytes()))
  {
  }

  /** What a replay read of the file and opening it takes away. */
  function Taken(env: Env, file: Option<Text>, truncates: bool): seq<Record> {
    if Removed(env, file, truncates) == [] then [] else TornReads(env, BytesOf(file))
  }

  lemma LoadedIs(env: Env, file: Option<Text>, truncates: bool)
    requires env.codec.Lawful()
    ensures var st := Loaded(env, file, truncates);
            && Records(env, st.Bytes()) == Records(env, BytesOf(file))
            && History(env, BytesOf(file)) == History(env, st.Bytes()) + Taken(env, file, truncates)
            && st.prev == EndOf(Records(env, BytesOf(file))) && env.codec.valid(st.prev)
  {
    LoadedFrom(env, file, truncates);
    RepairTakesNoRecord(env, BytesOf(file));
    EndValid(env, Lines(BytesOf(file)));
  }

  lemma RestartGenuine(env: Env, st: Ledger, io: OpenIo)
    requires env.Lawful() && Genuine(env, st)
    ensures Genuine(env, OpenStep(env, st.file, io))
  {
    var loaded, removed := Loaded(env, st.file, io.truncates), Removed(env, st.file, io.truncates);
    LoadedIs(env, st.file, io.truncates);
    assert Genuine(env, loaded);
    if removed != [] {
      AppendGenuine(env, loaded, LedgerIntegrity, TornPayload(env.hash, removed), io.repair);
      CheckGenuine(env, AppendStep(env, loaded, LedgerIntegrity, TornPayload(env.hash, removed), io.repair), io.check);
    } else {
      CheckGenuine(env, loaded, io.check);
    }
  }

  /** Over any run, writes failing or tearing as they may, the records of the file
      are written ones: the tamper results apply to a supervisor's file. */
  lemma {:induction false} WrittenOverRuns(env: Env, st: Ledger, es: seq<Event>)
    requires env.Lawful() && Genuine(env, st)
    ensures Genuine(env, Run(env, st, es)) && Written(Records(env, Run(env, st, es).Bytes()))
  {
    if es != [] {
      var before, e := Run(env, st, es[..|es| - 1]), es[|es| - 1];
      WrittenOverRuns(env, st, es[..|es| - 1]);
      match e
      case Log(kind, payload, io) => AppendGenuine(env, before, kind, payload, io);
      case Tick(io) => CheckGenuine(env, before, io);
      case Restart(io) => RestartGenuine(env, before, io);
    }
  }

  /** The first start, before any file. */
  lemma FreshGenuine(env: Env)
    requires env.Lawful()
    ensures Genuine(env, Ledger(None, 0, GENESIS, {}))
  {
    assert Plain(GENESIS);
    var lines := Lines([]);
    assert lines == [[]] && lines[..0] == [] && Parsed(env, lines) == [];
  }

  /** Tamper evidence for a supervisor's own file: whatever run from the first start
      wrote it, an edit of a record that is not last is reported at that record
      or at the next, or the two records collide. */
  lemma RunEditReported(env: Env, es: seq<Event>, head: Text, line: Text, tail: Text, text: Text)
    requires env.Lawful() && Run(env, Ledger(None, 0, GENESIS, {}), es).Bytes() == head + line + tail
    requires HoldsLine(head, line, tail) && Verify(env, head + line + tail).Good?
    requires !Blank(line) && Parsed(env, After(tail)) != []
    requires NEWLINE !in text && !Blank(text) && env.codec.parse(text) != env.codec.parse(line)
    ensures EditShows(env, Verify(env, head + text + tail), |Records(env, head)|, line, text)
  {
    FreshGenuine(env);
    WrittenOverRuns(env, Ledger(None, 0, GENESIS, {}), es);
    if env.codec.parse(line).Some? {
      WrittenHere(env, head, line, tail);
    }
    EditReported(env, head, line, tail, text);
  }

  /** A record on a line of a written file is itself written. */
  lemma WrittenHere(env: Env, head: Text, line: Text, tail: Text)
    requires HoldsLine(head, line, tail) && env.codec.parse(line).Some? && Written(Records(env, head + line + tail))
    ensures Unseparated(env.codec.parse(line).value)
  {
    var was, a := env.codec.parse(line).value, Body(head);
    LinesAround(head, line, tail);
    OneMoreParsed(env, a, line);
    ParsedJoin(env, a + [line], After(tail));
    assert Parsed(env, a + [line] + After(tail))[|Parsed(env, a)|] == was;
  }

  // ---- a break over a whole run -------------------------------------------

  /** Callers log no ledger-integrity records of their own, and no write is left
      torn; writes may fail. */
  predicate CleanEvent(e: Event) {
    match e
    case Log(kind, _, io) => kind != LedgerIntegrity && !io.outcome.Torn?
    case Tick(io) => !io.outcome.Torn?
    case Restart(o) => !o.repair.outcome.Torn? && !o.check.outcome.Torn?
  }

  predicate Names(r: Record, k: nat) {
    NamesBreak(r) && NamedBreak(r) == Some(k)
  }

  /** How many records name the break k. */
  function Mentions(rs: seq<Record>, k: nat): nat {
    if rs == [] then 0 else Mentions(rs[..|rs| - 1], k) + if Names(rs[|rs| - 1], k) then 1 else 0
  }

  lemma {:induction false} MentionedIsRecorded(rs: seq<Record>, k: nat)
    ensures Mentions(rs, k) > 0 ==> Some(k) in RecordedBreaks(rs)
  {
    if rs != [] {
      var init := rs[..|rs| - 1];
      MentionedIsRecorded(init, k);
      if Mentions(init, k) > 0 {
        var i :| 0 <= i < |init| && NamesBreak(init[i]) && NamedBreak(init[i]) == Some(k);
        assert rs[i] == init[i];
      }
    }
  }

  lemma MentionsOneMore(rs: seq<Record>, r: Record, k: nat)
    ensures Mentions(rs + [r], k) == Mentions(rs, k) + if Names(r, k) then 1 else 0
  {
    assert (rs + [r])[..|rs|] == rs;
  }

  function Recorded(env: Env, st: Ledger, k: nat): nat { Mentions(History(env, st.Bytes()), k) }

  // ---- no break is recorded twice -----------------------------------------

  /** The process remembers the break k if the file records it. */
  ghost predicate Remembers(env: Env, st: Ledger, k: nat) {
    env.codec.valid(st.prev) && (Recorded(env, st, k) > 0 ==> Some(k) in st.breaks)
  }

  /** From `before` to `after` at most one record naming k is added, and none if
      one was there. */
  ghost predicate OnceMore(env: Env, before: Ledger, after: Ledger, k: nat) {
    Recorded(env, after, k) <= if Recorded(env, before, k) > 0 then Recorded(env, before, k) else 1
  }

  /** However an append ends, it adds at most its own record. */
  lemma AppendMentions(env: Env, st: Ledger, kind: Kind, payload: Json, io: Io, k: nat)
    requires env.Lawful() && env.codec.valid(st.prev)
    ensures var after := AppendStep(env, st, kind, payload, io);
            && env.codec.valid(after.prev) && after.breaks == st.breaks
            && Recorded(env, st, k) <= Recorded(env, after, k) <=
               Recorded(env, st, k) + if Names(Record(kind, payload), k) then 1 else 0
  {
    AppendHistory(env, st, kind, payload, io);
    AppendBreaks(env, st, kind, payload, io);
    var after := AppendStep(env, st, kind, payload, io);
    MentionsGrow(History(env, st.Bytes()), History(env, after.Bytes()), Record(kind, payload), k);
  }

  lemma AppendBreaks(env: Env, st: Ledger, kind: Kind, payload: Json, io: Io)
    ensures AppendStep(env, st, kind, payload, io).breaks == st.breaks
  {
  }

  lemma MentionsGrow(rs: seq<Record>, more: seq<Record>, r: Record, k: nat)
    requires more == rs || more == rs + [r]
    ensures Mentions(rs, k) <= Mentions(more, k) <= Mentions(rs, k) + if Names(r, k) then 1 else 0
  {
    MentionsOneMore(rs, r, k);
  }

  lemma CheckOnce(env: Env, st: Ledger, io: Io, k: nat)
    requires env.Lawful() && Remembers(env, st, k)
    ensures Remembers(env, CheckStep(env, st, io), k) && OnceMore(env, st, CheckStep(env, st, io), k)
    ensures Recorded(env, st, k) <= Recorded(env, CheckStep(env, st, io), k)
  {
    var found := FirstBreak(env, st);
    if found.Some? && found !in st.breaks {
      AppendMentions(env, st.(breaks := st.breaks + {found}), LedgerIntegrity, BreakPayload(found.value), io, k);
      BreakPayloadNames(found.value);
    }
  }

  /** What is loaded remembers what it records, and has lost no mention of k but
      those that were taken. */
  lemma LoadedRemembers(env: Env, file: Option<Text>, truncates: bool, k: nat)
    requires env.Lawful()
    ensures var loaded := Loaded(env, file, truncates);
            && Remembers(env, loaded, k)
            && Mentions(History(env, BytesOf(file)), k) ==
               Recorded(env, loaded, k) + Mentions(Taken(env, file, truncates), k)
  {
    var loaded := Loaded(env, file, truncates);
    LoadedFrom(env, file, truncates);
    LoadedIs(env, file, truncates);
    MentionedIsRecorded(History(env, loaded.Bytes()), k);
    MentionsJoin(History(env, loaded.Bytes()), Taken(env, file, truncates), k);
  }

  lemma {:induction false} MentionsJoin(a: seq<Record>, b: seq<Record>, k: nat)
    ensures Mentions(a + b, k) == Mentions(a, k) + Mentions(b, k)
  {
    if b == [] {
      assert a + b == a;
    } else {
      var n := |b| - 1;
      assert (a + b)[..|a| + n] == a + b[..n];
      MentionsJoin(a, b[..n], k);
    }
  }

  lemma RestartOnce(env: Env, file: Option<Text>, io: OpenIo, k: nat)
    requires env.Lawful()
    ensures var after, loaded := OpenStep(env, file, io), Loaded(env, file, io.truncates);
            && Remembers(env, after, k) && OnceMore(env, loaded, after, k)
            && Recorded(env, loaded, k) <= Recorded(env, after, k)
  {
    var loaded, removed := Loaded(env, file, io.truncates), Removed(env, file, io.truncates);
    LoadedRemembers(env, file, io.truncates, k);
    if removed == [] {
      CheckOnce(env, loaded, io.check, k);
    } else {
      var note := TornPayload(env.hash, removed);
      AppendMentions(env, loaded, LedgerIntegrity, note, io.repair, k);
      TornPayloadNames(env.hash, removed, k);
      CheckOnce(env, AppendStep(env, loaded, LedgerIntegrity, note, io.repair), io.check, k);
    }
  }

  /** Over any run of appends, ticks and restarts, from any file and with every kind
      of failed or torn write, each break number is recorded at most once more,
      and not at all if the file records it already. Only callers must not log
      ledger-integrity records of their own. */
  lemma {:induction false} BreakRecordedOnce(env: Env, st: Ledger, es: seq<Event>, k: nat)
    requires env.Lawful() && Remembers(env, st, k)
    requires forall i :: 0 <= i < |es| && es[i].Log? ==> es[i].kind != LedgerIntegrity
    ensures Remembers(env, Run(env, st, es), k) && OnceMore(env, st, Run(env, st, es), k)
  {
    if es != [] {
      var before, e := Run(env, st, es[..|es| - 1]), es[|es| - 1];
      BreakRecordedOnce(env, st, es[..|es| - 1], k);
      match e
      case Log(kind, payload, io) => AppendMentions(env, before, kind, payload, io, k);
      case Tick(io) => CheckOnce(env, before, io, k);
      case Restart(io) =>
        RestartOnce(env, before.file, io, k);
        LoadedRemembers(env, before.file, io.truncates, k);
    }
  }

  /** A record of the break is never lost, but for those a restart takes with a torn
      line that replay reads. */
  lemma StepKeepsMention(env: Env, st: Ledger, e: Event, k: nat)
    requires env.Lawful() && Remembers(env, st, k)
    ensures (e.Restart? ==> Mentions(Taken(env, st.file, e.open.truncates), k) == 0) ==>
              Recorded(env, st, k) <= Recorded(env, Step(env, st, e), k)
  {
    match e
    case Log(kind, payload, io) => AppendMentions(env, st, kind, payload, io, k);
    case Tick(io) => CheckOnce(env, st, io, k);
    case Restart(io) =>
      RestartOnce(env, st.file, io, k);
      LoadedRemembers(env, st.file, io.truncates, k);
  }

  /** Event i of the run is a restart that takes a torn line naming the break. */
  ghost predicate TakesMention(env: Env, st: Ledger, es: seq<Event>, k: nat, i: nat) {
    && i < |es| && es[i].Restart?
    && Mentions(Taken(env, Run(env, st, es[..i]).file, es[i].open.truncates), k) > 0
  }

  lemma {:induction false} TakesMentionBefore(env: Env, st: Ledger, es: seq<Event>, k: nat, i: nat)
    requires es != [] && TakesMention(env, st, es[..|es| - 1], k, i)
    ensures TakesMention(env, st, es, k, i)
  {
    var init := es[..|es| - 1];
    assert init[..i] == es[..i] && init[i] == es[i];
  }

  lemma {:induction false} LastKeepsMention(env: Env, st: Ledger, es: seq<Event>, k: nat)
    requires es != [] && env.Lawful() && Remembers(env, Run(env, st, es[..|es| - 1]), k)
    requires !TakesMention(env, st, es, k, |es| - 1)
    ensures Recorded(env, Run(env, st, es[..|es| - 1]), k) <= Recorded(env, Run(env, st, es), k)
  {
    StepKeepsMention(env, Run(env, st, es[..|es| - 1]), es[|es| - 1], k);
  }

  /** Over any run, the records of a break are never fewer than they were, unless
      some restart takes a torn line that names it. */
  lemma {:induction false} MentionsStay(env: Env, st: Ledger, es: seq<Event>, k: nat)
    requires env.Lawful() && Remembers(env, st, k)
    requires forall i :: 0 <= i < |es| && es[i].Log? ==> es[i].kind != LedgerIntegrity
    ensures Recorded(env, st, k) <= Recorded(env, Run(env, st, es), k) || exists i :: TakesMention(env, st, es, k, i)
  {
    if es != [] && !TakesMention(env, st, es, k, |es| - 1) {
      var init := es[..|es| - 1];
      MentionsStay(env, st, init, k);
      BreakRecordedOnce(env, st, init, k);
      LastKeepsMention(env, st, es, k);
      if i :| TakesMention(env, st, init, k, i) {
        TakesMentionBefore(env, st, es, k, i);
      }
    }
  }

  /** Every ledger that was just opened remembers what its file records. */
  lemma OpenedRemembers(env: Env, file: Option<Text>, io: OpenIo, k: nat)
    requires env.Lawful()
    ensures Remembers(env, OpenStep(env, file, io), k)
  {
    RestartOnce(env, file, io, k);
  }

  // ---- a break as long as it is shown -------------------------------------

  /** The file shows a break at k, and the process remembers it if the file records
      it. The last visible line may be unreadable. */
  ghost predicate Broken(env: Env, st: Ledger, k: nat) {
    && Verify(env, st.Bytes()) == Bad(k) && k < U64_LIMIT
    && |st.Bytes()| <= MAX_FILE && env.codec.valid(st.prev)
    && (Recorded(env, st, k) > 0 ==> Some(k) in st.breaks)
  }

  /** A break that no restart can take away: nothing would be torn off. */
  ghost predicate Standing(env: Env, st: Ledger, k: nat) {
    Broken(env, st, k) && TornTail(env, st.Bytes()) == []
  }

  /** Nothing is torn off a file whose last visible line is a printed record. */
  lemma PrintedTailStays(env: Env, bytes: Text, l: Line)
    requires env.codec.Lawful() && env.codec.Printable(l)
    ensures TornTail(env, Appended(bytes, env.codec.write(l))) == []
  {
    var text := env.codec.write(l);
    PrintedTail(env, Ended(bytes), text);
    assert Appended(bytes, text) == Ended(bytes) + (text + [NEWLINE]);
  }

  lemma PrintedTail(env: Env, head: Text, text: Text)
    requires env.codec.TrimSafe() && Terminated(head) && OneVisibleLine(text) && env.codec.parse(text).Some?
    ensures TornTail(env, head + (text + [NEWLINE])) == []
  {
    var last := text + [NEWLINE];
    var whole := head + last;
    assert whole[..|head|] == head && whole[|head|..] == last;
    SinglePiece(text, NEWLINE);
    SplitAt(text, NEWLINE, []);
    assert last == text + [NEWLINE] + [];
    assert Lines(last) == [text, []];
    TailFound(whole, |head|);
    TrimTail(last);
  }

  /** The file's history after an append. */
  function Logged(env: Env, st: Ledger, kind: Kind, payload: Json, io: Io): seq<Record> {
    var before := History(env, st.Bytes());
    if Persists(env, st, kind, payload, io) then before + [Record(kind, payload)] else before
  }

  /** What an append leaves of a break. */
  ghost predicate AppendKept(env: Env, st: Ledger, kind: Kind, payload: Json, io: Io, k: nat) {
    var after := AppendStep(env, st, kind, payload, io);
    && Verify(env, after.Bytes()) == Bad(k) && |after.Bytes()| <= MAX_FILE && env.codec.valid(after.prev)
    && (TornTail(env, st.Bytes()) == [] || Persists(env, st, kind, payload, io) ==> TornTail(env, after.Bytes()) == [])
    && after.breaks == st.breaks
    && History(env, after.Bytes()) == Logged(env, st, kind, payload, io)
  }

  lemma WrittenKept(env: Env, st: Ledger, kind: Kind, payload: Json, ts: Stamp, k: nat)
    requires env.Lawful() && env.codec.valid(st.prev) && Verify(env, st.Bytes()) == Bad(k)
    ensures var whole := Appended(st.Bytes(), NextText(env, st, kind, payload, ts));
            && Verify(env, whole) == Bad(k) && TornTail(env, whole) == []
            && History(env, whole) == History(env, st.Bytes()) + [Record(kind, payload)]
            && env.codec.valid(NextLine(env, st, kind, payload, ts).digest)
  {
    AppendWrites(env, st, kind, payload, ts);
    NextLineLinks(env, st, kind, payload, ts);
    PrintedTailStays(env, st.Bytes(), NextLine(env, st, kind, payload, ts));
  }

  lemma UnwrittenKept(env: Env, st: Ledger, kind: Kind, payload: Json, io: Io, k: nat)
    requires !io.outcome.Torn? && !Persists(env, st, kind, payload, io) && env.codec.valid(st.prev)
    requires Verify(env, st.Bytes()) == Bad(k) && |st.Bytes()| <= MAX_FILE
    ensures AppendKept(env, st, kind, payload, io, k)
  {
    UnwrittenKeeps(env, st, kind, payload, io);
  }

  /** One append under a break. */
  lemma AppendBroken(env: Env, st: Ledger, kind: Kind, payload: Json, io: Io, k: nat)
    requires env.Lawful() && !io.outcome.Torn? && env.codec.valid(st.prev)
    requires Verify(env, st.Bytes()) == Bad(k) && |st.Bytes()| <= MAX_FILE
    ensures AppendKept(env, st, kind, payload, io, k)
  {
    if Persists(env, st, kind, payload, io) {
      WrittenKept(env, st, kind, payload, io.ts, k);
    } else {
      UnwrittenKept(env, st, kind, payload, io, k);
    }
  }

  lemma LoggedMentions(env: Env, st: Ledger, kind: Kind, payload: Json, io: Io, k: nat)
    ensures Mentions(Logged(env, st, kind, payload, io), k) == Recorded(env, st, k) +
            if Persists(env, st, kind, payload, io) && Names(Record(kind, payload), k) then 1 else 0
  {
    MentionsOneMore(History(env, st.Bytes()), Record(kind, payload), k);
  }

  /** A record that names no break leaves a break as it is. */
  lemma LoggedBroken(env: Env, st: Ledger, kind: Kind, payload: Json, io: Io, k: nat)
    requires Broken(env, st, k) && !Names(Record(kind, payload), k) && AppendKept(env, st, kind, payload, io, k)
    ensures Broken(env, AppendStep(env, st, kind, payload, io), k)
    ensures Recorded(env, AppendStep(env, st, kind, payload, io), k) == Recorded(env, st, k)
    ensures Standing(env, st, k) ==> Standing(env, AppendStep(env, st, kind, payload, io), k)
  {
    LoggedMentions(env, st, kind, payload, io, k);
  }

  lemma BreakPayloadNames(k: nat)
    requires k < U64_LIMIT
    ensures Names(Record(LedgerIntegrity, BreakPayload(k)), k)
  {
    assert |"finding"| != |"first_break_seq"|;
  }

  lemma TornPayloadNames(hash: Text -> Text, removed: Text, k: nat)
    ensures !Names(Record(LedgerIntegrity, TornPayload(hash, removed)), k)
  {
    assert |"finding"| != |"first_break_seq"| && |"removed_bytes"| != |"first_break_seq"|;
    assert |"removed_sha256"| != |"first_break_seq"|;
  }

  /** What a tick makes of a break. */
  ghost predicate Ticked(env: Env, st: Ledger, after: Ledger, io: Io, k: nat) {
    && Broken(env, after, k) && Some(k) in after.breaks
    && (Standing(env, st, k) ==> Standing(env, after, k))
    && (Some(k) !in st.breaks
        && Persists(env, st.(breaks := st.breaks + {Some(k)}), LedgerIntegrity, BreakPayload(k), io) ==>
          Standing(env, after, k) && Recorded(env, after, k) == 1)
  }

  lemma NotedOnce(env: Env, st: Ledger, noted: Ledger, io: Io, k: nat)
    requires Broken(env, st, k) && Some(k) !in st.breaks && noted == st.(breaks := st.breaks + {Some(k)})
    requires AppendKept(env, noted, LedgerIntegrity, BreakPayload(k), io, k)
    ensures Ticked(env, st, AppendStep(env, noted, LedgerIntegrity, BreakPayload(k), io), io, k)
  {
    BreakPayloadNames(k);
    assert History(env, noted.Bytes()) == History(env, st.Bytes());
    LoggedMentions(env, noted, LedgerIntegrity, BreakPayload(k), io, k);
  }

  /** The break a tick finds. */
  lemma TickFinds(env: Env, st: Ledger, io: Io, k: nat)
    requires Broken(env, st, k)
    ensures FirstBreak(env, st) == Some(k)
    ensures CheckStep(env, st, io) == if Some(k) in st.breaks then st
            else AppendStep(env, st.(breaks := st.breaks + {Some(k)}), LedgerIntegrity, BreakPayload(k), io)
  {
    assert k % U64_LIMIT == k;
  }

  /** A tick under a break notes it; once the note is written the break stands and
      is recorded exactly once. */
  lemma TickBroken(env: Env, st: Ledger, io: Io, k: nat)
    requires env.Lawful() && !io.outcome.Torn? && Broken(env, st, k)
    ensures Ticked(env, st, CheckStep(env, st, io), io, k)
  {
    TickFinds(env, st, io, k);
    if Some(k) !in st.breaks {
      var noted := st.(breaks := st.breaks + {Some(k)});
      AppendBroken(env, noted, LedgerIntegrity, BreakPayload(k), io, k);
      NotedOnce(env, st, noted, io, k);
    }
  }

  // ---- restarts -----------------------------------------------------------

  /** Whether a restart mends the file: its one unreadable line is the last visible
      one, and can be cut off. */
  ghost predicate Mends(env: Env, file: Option<Text>, io: OpenIo) {
    Removed(env, file, io.truncates) != [] && Verify(env, Repaired(env, BytesOf(file))).Good?
  }

  /** A file with a break, loaded: still that break unless the restart mends it. */
  lemma LoadedBroken(env: Env, st: Ledger, io: OpenIo, k: nat)
    requires env.Lawful() && Broken(env, st, k)
    ensures var loaded := Loaded(env, st.file, io.truncates);
            && |loaded.Bytes()| <= |st.Bytes()| && env.codec.valid(loaded.prev)
            && (!Mends(env, st.file, io) ==> Broken(env, loaded, k))
            && (Standing(env, st, k) ==> Standing(env, loaded, k) && Removed(env, st.file, io.truncates) == [])
  {
    LoadedFrom(env, st.file, io.truncates);
    LoadedRemembers(env, st.file, io.truncates, k);
    RepairTakesNoRecord(env, st.Bytes());
  }

  /** A restart under a break that it does not mend. */
  lemma RestartBroken(env: Env, st: Ledger, io: OpenIo, k: nat)
    requires env.Lawful() && !io.repair.outcome.Torn? && !io.check.outcome.Torn?
    requires Broken(env, st, k) && !Mends(env, st.file, io)
    ensures var after := OpenStep(env, st.file, io);
            Broken(env, after, k) && (Standing(env, st, k) ==> Standing(env, after, k))
  {
    var loaded, removed := Loaded(env, st.file, io.truncates), Removed(env, st.file, io.truncates);
    LoadedBroken(env, st, io, k);
    if removed == [] {
      TickBroken(env, loaded, io.check, k);
    } else {
      var note := TornPayload(env.hash, removed);
      AppendBroken(env, loaded, LedgerIntegrity, note, io.repair, k);
      TornPayloadNames(env.hash, removed, k);
      LoggedBroken(env, loaded, LedgerIntegrity, note, io.repair, k);
      TickBroken(env, AppendStep(env, loaded, LedgerIntegrity, note, io.repair), io.check, k);
    }
  }

  /** A restart that mends leaves an intact chain. */
  lemma RestartMends(env: Env, st: Ledger, io: OpenIo, k: nat)
    requires env.Lawful() && !io.repair.outcome.Torn? && Broken(env, st, k) && Mends(env, st.file, io)
    ensures Synced(env, OpenStep(env, st.file, io))
  {
    var loaded, removed := Loaded(env, st.file, io.truncates), Removed(env, st.file, io.truncates);
    var note := TornPayload(env.hash, removed);
    LoadedBroken(env, st, io, k);
    SeedSynced(env, Some(Repaired(env, st.Bytes())), RecordedBreaks(History(env, Repaired(env, st.Bytes()))));
    assert Synced(env, loaded);
    AppendKeepsSynced(env, loaded, LedgerIntegrity, note, io.repair);
  }

  // ---- whole runs ---------------------------------------------------------

  /** An intact ledger stays intact. */
  lemma SyncedStep(env: Env, st: Ledger, e: Event)
    requires env.Lawful() && Synced(env, st) && CleanEvent(e)
    ensures Synced(env, Step(env, st, e))
  {
    match e
    case Log(kind, payload, io) => AppendKeepsSynced(env, st, kind, payload, io);
    case Tick(io) =>
    case Restart(io) => LoadedSynced(env, st.file, io.truncates);
  }

  lemma BrokenStep(env: Env, st: Ledger, e: Event, k: nat)
    requires env.Lawful() && Broken(env, st, k) && CleanEvent(e)
    ensures || Broken(env, Step(env, st, e), k)
            || (e.Restart? && Mends(env, st.file, e.open) && Synced(env, Step(env, st, e)))
    ensures Standing(env, st, k) ==>
              Standing(env, Step(env, st, e), k) && Recorded(env, st, k) <= Recorded(env, Step(env, st, e), k)
  {
    StepKeepsMention(env, st, e, k);
    match e
    case Log(kind, payload, io) =>
      AppendBroken(env, st, kind, payload, io, k);
      LoggedBroken(env, st, kind, payload, io, k);
    case Tick(io) => TickBroken(env, st, io, k);
    case Restart(io) =>
      if Mends(env, st.file, io) {
        RestartMends(env, st, io, k);
      } else {
        RestartBroken(env, st, io, k);
      }
  }

  /** Over any run of appends, ticks and restarts with no outside edit and no torn
      write the file goes on showing a break, until a restart mends the file; from
      then on it is intact. */
  lemma {:induction false} BreakShownUntilMended(env: Env, st: Ledger, es: seq<Event>, k: nat)
    requires env.Lawful() && Broken(env, st, k)
    requires forall i :: 0 <= i < |es| ==> CleanEvent(es[i])
    ensures Broken(env, Run(env, st, es), k) || Synced(env, Run(env, st, es))
  {
    if es != [] {
      var init, e := es[..|es| - 1], es[|es| - 1];
      BreakShownUntilMended(env, st, init, k);
      var before := Run(env, st, init);
      if Broken(env, before, k) {
        BrokenStep(env, before, e, k);
      } else {
        SyncedStep(env, before, e);
      }
    }
  }

  /** A standing break keeps its number for ever. */
  lemma {:induction false} StandingBreakStays(env: Env, st: Ledger, es: seq<Event>, k: nat)
    requires env.Lawful() && Standing(env, st, k)
    requires forall i :: 0 <= i < |es| ==> CleanEvent(es[i])
    ensures Standing(env, Run(env, st, es), k) && FirstBreak(env, Run(env, st, es)) == Some(k)
    ensures Recorded(env, st, k) <= Recorded(env, Run(env, st, es), k)
  {
    if es != [] {
      var init, e := es[..|es| - 1], es[|es| - 1];
      StandingBreakStays(env, st, init, k);
      BrokenStep(env, Run(env, st, init), e, k);
    }
  }

  // ---- removals during the process ----------------------------------------

  /** Any intact file with fewer records than the process knows of is reported at
      the number of records left. Once that finding is written the file itself
      stands broken there, with one record of it more. */
  lemma RemovalReportedAndWritten(env: Env, st: Ledger, left: Option<Text>, io: Io)
    requires env.Lawful() && Synced(env, st) && |BytesOf(left)| <= MAX_FILE
    requires Verify(env, BytesOf(left)).Good? && Verify(env, BytesOf(left)).records < st.next
    ensures var cut, k := st.(file := left), Verify(env, BytesOf(left)).records;
            && FirstBreak(env, cut) == Some(k)
            && (Some(k) !in st.breaks
                && Persists(env, cut.(breaks := st.breaks + {Some(k)}), LedgerIntegrity, BreakPayload(k), io) ==>
                  && Standing(env, CheckStep(env, cut, io), k)
                  && Recorded(env, CheckStep(env, cut, io), k) == Recorded(env, cut, k) + 1)
  {
    var cut, k := st.(file := left), Verify(env, BytesOf(left)).records;
    var noted := cut.(breaks := st.breaks + {Some(k)});
    SyncedValid(env, st);
    AppendWrites(env, noted, LedgerIntegrity, BreakPayload(k), io.ts);
    NextLineLinks(env, noted, LedgerIntegrity, BreakPayload(k), io.ts);
    PrintedTailStays(env, noted.Bytes(), NextLine(env, noted, LedgerIntegrity, BreakPayload(k), io.ts));
    BreakPayloadNames(k);
    LoggedMentions(env, noted, LedgerIntegrity, BreakPayload(k), io, k);
  }

  /** The whole story of a removal: reported at the records left, recorded, and
      over any later run reported there for ever and never recorded again. */
  lemma RemovalRecordedOnce(env: Env, st: Ledger, left: Option<Text>, io: Io, es: seq<Event>)
    requires env.Lawful() && Synced(env, st) && |BytesOf(left)| <= MAX_FILE
    requires Verify(env, BytesOf(left)).Good? && Verify(env, BytesOf(left)).records < st.next
    requires var cut, k := st.(file := left), Verify(env, BytesOf(left)).records;
             Some(k) !in st.breaks
             && Persists(env, cut.(breaks := st.breaks + {Some(k)}), LedgerIntegrity, BreakPayload(k), io)
    requires forall i :: 0 <= i < |es| ==> CleanEvent(es[i])
    ensures var cut, k := st.(file := left), Verify(env, BytesOf(left)).records;
            var after := Run(env, CheckStep(env, cut, io), es);
            && FirstBreak(env, after) == Some(k)
            && Recorded(env, after, k) == Recorded(env, cut, k) + 1
  {
    var cut, k := st.(file := left), Verify(env, BytesOf(left)).records;
    RemovalReportedAndWritten(env, st, left, io);
    StandingBreakStays(env, CheckStep(env, cut, io), es, k);
    BreakRecordedOnce(env, CheckStep(env, cut, io), es, k);
  }
}
