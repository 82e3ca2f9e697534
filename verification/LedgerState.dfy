/** The ledger as a state machine: append, check and open against a file that
    can be cut, edited or half written. */
module LedgerState {
  import opened Common
  import opened LedgerFormat
  import opened LedgerChain
  import opened LedgerFile

  /** The file (`None` when it does not exist), the append cursor and the breaks
      the ledger already records. */
  datatype Ledger = Ledger(file: Option<Text>, next: U64, prev: Text, breaks: set<Option<nat>>)
  {
    function Bytes(): Text { BytesOf(file) }
  }

  /** The largest file offset. */
  const MAX_FILE: nat := 0x7fff_ffff_ffff_ffff

  /** How one write ends: written and synced; not opened; failed and cut back;
      failed with `kept` bytes left because cutting back failed too. */
  datatype Outcome = Done | Refused | RolledBack | Torn(kept: nat)

  datatype Io = Io(ts: Stamp, outcome: Outcome)

  // ---- append -------------------------------------------------------------

  function NextLine(env: Env, st: Ledger, kind: Kind, payload: Json, ts: Stamp): Line {
    var open := Line(st.next, st.prev, ts, Ascii(kind.Name()), env.codec.render(payload), []);
    open.(digest := env.seal(open))
  }

  function NextText(env: Env, st: Ledger, kind: Kind, payload: Json, ts: Stamp): Text {
    env.codec.write(NextLine(env, st, kind, payload, ts))
  }

  /** Whether the append reaches the disk. */
  predicate Persists(env: Env, st: Ledger, kind: Kind, payload: Json, io: Io) {
    io.outcome.Done? && |Appended(st.Bytes(), NextText(env, st, kind, payload, io.ts))| <= MAX_FILE
  }

  function AppendStep(env: Env, st: Ledger, kind: Kind, payload: Json, io: Io): Ledger {
    var whole := Appended(st.Bytes(), NextText(env, st, kind, payload, io.ts));
    if Persists(env, st, kind, payload, io) then
      st.(file := Some(whole),
          next := (st.next + 1) % U64_LIMIT,
          prev := NextLine(env, st, kind, payload, io.ts).digest)
    else
      match io.outcome
      case Refused => st
      case Torn(kept) => st.(file := Some(whole[..Least(|st.Bytes()| + kept, |whole|)]))
      case _ => st.(file := Some(st.Bytes()))
  }

  /** The file is an intact chain that the cursor continues. */
  ghost predicate Synced(env: Env, st: Ledger) {
    && Verify(env, st.Bytes()) == Good(st.next, st.prev)
    && |st.Bytes()| <= MAX_FILE
  }

  /** The next line can be printed, and links to the cursor. */
  lemma NextLineLinks(env: Env, st: Ledger, kind: Kind, payload: Json, ts: Stamp)
    requires env.Seals() && env.PlainSeals() && env.codec.SpeaksText() && env.codec.valid(st.prev)
    ensures env.codec.Printable(NextLine(env, st, kind, payload, ts))
    ensures Links(env, NextLine(env, st, kind, payload, ts), st.next, st.prev)
  {
    var open := Line(st.next, st.prev, ts, Ascii(kind.Name()), env.codec.render(payload), []);
    var l := NextLine(env, st, kind, payload, ts);
    assert Exposed(open) && Exposed(l);
    assert Preimage(open) == Preimage(l);
  }

  /** What an append that reaches the disk does to the walk, the records and the
      replay. */
  lemma AppendWrites(env: Env, st: Ledger, kind: Kind, payload: Json, ts: Stamp)
    requires env.Lawful() && env.codec.valid(st.prev)
    ensures var l := NextLine(env, st, kind, payload, ts);
            var whole := Appended(st.Bytes(), env.codec.write(l));
            && Terminated(whole)
            && Records(env, whole) == Records(env, st.Bytes()) + [l]
            && History(env, whole) == History(env, st.Bytes()) + [Record(kind, payload)]
            && Verify(env, whole) == WalkLine(env, env.codec.write(l), Verify(env, st.Bytes()))
            && !Blank(env.codec.write(l)) && env.codec.parse(env.codec.write(l)) == Some(l)
  {
    var l := NextLine(env, st, kind, payload, ts);
    NextLineLinks(env, st, kind, payload, ts);
    WrittenLine(env.codec, l, kind, payload);
    AppendExtends(env, st.Bytes(), env.codec.write(l));
  }

  lemma WrittenLine(c: Codec, l: Line, kind: Kind, payload: Json)
    requires c.Lawful() && c.Printable(l)
    requires l.kind == Ascii(kind.Name()) && l.payload == c.render(payload)
    ensures OneVisibleLine(c.write(l)) && !Blank(c.write(l))
    ensures c.parse(c.write(l)) == Some(l)
    ensures c.read(c.write(l)) == Some(Record(kind, payload))
  {
  }

  /** What an append makes of an intact ledger. */
  ghost predicate SyncKept(env: Env, st: Ledger, kind: Kind, payload: Json, io: Io) {
    var after := AppendStep(env, st, kind, payload, io);
    && Synced(env, after)
    && if Persists(env, st, kind, payload, io)
       then Records(env, after.Bytes()) == Records(env, st.Bytes()) + [NextLine(env, st, kind, payload, io.ts)]
            && after.next == st.next + 1
       else after.Bytes() == st.Bytes() && after.next == st.next && after.prev == st.prev
  }

  /** An append keeps an intact file intact with the cursor on its last record,
      whether it is written, refused or rolled back; a failed one changes no
      record and leaves no partial line. */
  lemma AppendKeepsSynced(env: Env, st: Ledger, kind: Kind, payload: Json, io: Io)
    requires env.Lawful() && Synced(env, st) && !io.outcome.Torn?
    ensures SyncKept(env, st, kind, payload, io)
  {
    if Persists(env, st, kind, payload, io) {
      WrittenSynced(env, st, kind, payload, io.ts);
      WrittenKeeps(env, st, kind, payload, io);
    } else {
      UnwrittenKeeps(env, st, kind, payload, io);
    }
  }

  ghost predicate WritesNext(env: Env, st: Ledger, kind: Kind, payload: Json, ts: Stamp) {
    var l, whole := NextLine(env, st, kind, payload, ts), Appended(st.Bytes(), NextText(env, st, kind, payload, ts));
    && Verify(env, whole) == Good(st.next + 1, l.digest) && (st.next + 1) % U64_LIMIT == st.next + 1
    && Records(env, whole) == Records(env, st.Bytes()) + [l]
  }

  lemma WrittenKeeps(env: Env, st: Ledger, kind: Kind, payload: Json, io: Io)
    requires Persists(env, st, kind, payload, io) && WritesNext(env, st, kind, payload, io.ts)
    ensures SyncKept(env, st, kind, payload, io)
  {
  }

  lemma WrittenSynced(env: Env, st: Ledger, kind: Kind, payload: Json, ts: Stamp)
    requires env.Lawful() && Synced(env, st)
    ensures WritesNext(env, st, kind, payload, ts)
  {
    SyncedValid(env, st);
    AppendWrites(env, st, kind, payload, ts);
    NextLineLinks(env, st, kind, payload, ts);
    SyncedRoom(env, st);
  }

  /** The next number does not wrap. */
  lemma SyncedRoom(env: Env, st: Ledger)
    requires env.codec.SkipsBlanks() && Synced(env, st)
    ensures (st.next + 1) % U64_LIMIT == st.next + 1
  {
    IntactCount(env, st.Bytes());
    Unwrapped(st.next + 1);
  }

  lemma UnwrittenKeeps(env: Env, st: Ledger, kind: Kind, payload: Json, io: Io)
    requires !io.outcome.Torn? && !Persists(env, st, kind, payload, io)
    ensures var after := AppendStep(env, st, kind, payload, io);
            after.Bytes() == st.Bytes() && after.breaks == st.breaks && after.prev == st.prev && after.next == st.next
  {
  }

  /** What the next record links to is text: the genesis digest or a parsed one. */
  lemma {:induction false} EndValid(env: Env, lines: seq<Text>)
    requires env.codec.SpeaksText()
    ensures env.codec.valid(EndOf(Parsed(env, lines)))
  {
    if lines == [] {
      assert Plain(GENESIS);
    } else {
      EndValid(env, lines[..|lines| - 1]);
    }
  }

  lemma SyncedValid(env: Env, st: Ledger)
    requires env.codec.SpeaksText() && env.codec.SkipsBlanks() && Synced(env, st)
    ensures env.codec.valid(st.prev)
  {
    IntactIffChained(env, Lines(st.Bytes()));
    EndValid(env, Lines(st.Bytes()));
  }

  /** The cursor never wraps: a file has fewer bytes than 2^63. */
  lemma IntactCount(env: Env, bytes: Text)
    requires env.codec.SkipsBlanks() && Verify(env, bytes).Good? && |bytes| <= MAX_FILE
    ensures Verify(env, bytes).records == |Records(env, bytes)| < U64_LIMIT - 1
  {
    IntactIffChained(env, Lines(bytes));
    RecordCount(env, bytes);
  }

  // ---- check --------------------------------------------------------------

  /** `verify`: the seq of the first break, counting records this process knows
      the file held. */
  function FirstBreak(env: Env, st: Ledger): Option<nat> {
    match Verify(env, st.Bytes())
    case Bad(k) => Some(k % U64_LIMIT)
    case Good(n, _) => if n < st.next then Some(n) else None
  }

  function BreakPayload(k: nat): Json {
    Json(map["finding" := One(Str("chain_break")), "first_break_seq" := One(Number(k % U64_LIMIT))])
  }

  /** Lines 404-434. */
  function CheckStep(env: Env, st: Ledger, io: Io): Ledger {
    var found := FirstBreak(env, st);
    if found.None? || found in st.breaks then st
    else AppendStep(env, st.(breaks := st.breaks + {found}), LedgerIntegrity, BreakPayload(found.value), io)
  }

  // ---- open ---------------------------------------------------------------

  /** The breaks a replayed record names. */
  predicate NamesBreak(r: Record) {
    r.kind == LedgerIntegrity && r.payload.Get("first_break_seq").Some?
  }

  function NamedBreak(r: Record): Option<nat>
    requires NamesBreak(r)
  {
    var v := r.payload.Get("first_break_seq").value;
    if v.One? && v.leaf.Number? then Some(v.leaf.n) else None
  }

  function RecordedBreaks(rs: seq<Record>): set<Option<nat>> {
    set i | 0 <= i < |rs| && NamesBreak(rs[i]) :: NamedBreak(rs[i])
  }

  /** The number after the last record's. */
  function NextOf(ls: seq<Line>): U64 {
    if ls == [] then 0 else (ls[|ls| - 1].number + 1) % U64_LIMIT
  }

  function SeedTail(file: Option<Text>, ls: seq<Line>, breaks: set<Option<nat>>): Ledger {
    Ledger(file, NextOf(ls), EndOf(ls), breaks)
  }

  function TornPayload(hash: Text -> Text, removed: Text): Json {
    var digest := hash(removed);
    var hex := seq(|digest|, i requires 0 <= i < |digest| => digest[i] as char);
    Json(map["finding" := One(Str("partial_final_line")),
             "removed_bytes" := One(Number(|removed| % U64_LIMIT)),
             "removed_sha256" := One(Str(hex))])
  }

  /** Whether the torn tail can be cut off, and how the two possible appends end. */
  datatype OpenIo = OpenIo(truncates: bool, repair: Io, check: Io)

  function BytesOf(file: Option<Text>): Text {
    if file.Some? then file.value else []
  }

  /** The file and cursor before `open` writes anything. */
  function Loaded(env: Env, file: Option<Text>, truncates: bool): Ledger {
    var bytes := BytesOf(file);
    var cut := truncates && TornTail(env, bytes) != [];
    var kept := if cut then Repaired(env, bytes) else bytes;
    SeedTail(if cut then Some(kept) else file, Records(env, kept), RecordedBreaks(History(env, kept)))
  }

  /** The end of `open`: record a removed tail, then check the chain. */
  function Finished(env: Env, st: Ledger, removed: Text, repair: Io, check: Io): Ledger {
    var logged := if removed == [] then st
                  else AppendStep(env, st, LedgerIntegrity, TornPayload(env.hash, removed), repair);
    CheckStep(env, logged, check)
  }

  function Removed(env: Env, file: Option<Text>, truncates: bool): Text {
    if truncates then TornTail(env, BytesOf(file)) else []
  }

  /** Lines 197-240. */
  function OpenStep(env: Env, file: Option<Text>, io: OpenIo): Ledger {
    Finished(env, Loaded(env, file, io.truncates), Removed(env, file, io.truncates), io.repair, io.check)
  }

  /** Loading an intact file changes nothing and puts the cursor on its last
      record. */
  lemma LoadedSynced(env: Env, file: Option<Text>, truncates: bool)
    requires env.Lawful()
    requires Verify(env, BytesOf(file)).Good? && |BytesOf(file)| <= MAX_FILE
    ensures Loaded(env, file, truncates).file == file
    ensures Synced(env, Loaded(env, file, truncates))
    ensures TornTail(env, BytesOf(file)) == []
  {
    IntactIffChained(env, Lines(BytesOf(file)));
    RepairKeepsRecords(env, BytesOf(file));
    SeedSynced(env, file, RecordedBreaks(History(env, BytesOf(file))));
  }

  lemma SeedSynced(env: Env, file: Option<Text>, breaks: set<Option<nat>>)
    requires env.codec.SkipsBlanks()
    requires Verify(env, BytesOf(file)).Good? && |BytesOf(file)| <= MAX_FILE
    ensures Synced(env, SeedTail(file, Records(env, BytesOf(file)), breaks))
  {
    IntactIffChained(env, Lines(BytesOf(file)));
    IntactCount(env, BytesOf(file));
    NextOfChain(env, Records(env, BytesOf(file)));
  }

  /** A chain short enough to number is followed by its length. */
  lemma NextOfChain(env: Env, ls: seq<Line>)
    requires Chained(env, ls) && |ls| < U64_LIMIT
    ensures NextOf(ls) == |ls|
  {
    if ls != [] {
      ChainedAt(env, ls, |ls| - 1);
      Unwrapped(|ls|);
    }
  }

  lemma Unwrapped(n: nat)
    requires n < U64_LIMIT
    ensures n % U64_LIMIT == n
  {
  }

  /** What the supervisor appends keeps the framing unambiguous: timestamps, kind
      names and digests hold no separator, and printed JSON holds none. */
  lemma NextLineWritten(env: Env, st: Ledger, kind: Kind, payload: Json, ts: Stamp)
    requires env.Lawful() && env.codec.valid(st.prev) && SEPARATOR !in st.prev
    ensures var l := NextLine(env, st, kind, payload, ts);
            Unseparated(l) && SEPARATOR !in l.payload && SEPARATOR !in l.digest
  {
    var l := NextLine(env, st, kind, payload, ts);
    NextLineLinks(env, st, kind, payload, ts);
    assert env.codec.parse(env.codec.write(l)) == Some(l);
  }
}
