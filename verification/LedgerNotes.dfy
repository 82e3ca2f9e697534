/** What opening and checking write down, and where the cursor starts on a file
    whose chain is broken. */
module LedgerNotes {
  import opened Common
  import opened LedgerFormat
  import opened LedgerChain
  import opened LedgerFile
  import opened LedgerState
  import opened LedgerRecovery

  // ---- the cursor ---------------------------------------------------------

  /** Line i is the last one that parses. */
  ghost predicate LastParsed(env: Env, lines: seq<Text>, i: nat) {
    && i < |lines| && env.codec.parse(lines[i]).Some?
    && forall j :: i < j < |lines| ==> env.codec.parse(lines[j]).None?
  }

  /** The number after a record's; the last one wraps. */
  function After(rec: Line): U64 { if rec.number == U64_LIMIT - 1 then 0 else rec.number + 1 }

  /** However broken the chain, the cursor goes on from the last line that parses. */
  lemma {:induction false} SeedsFromLast(env: Env, lines: seq<Text>, i: nat)
    requires LastParsed(env, lines, i)
    ensures NextOf(Parsed(env, lines)) == After(env.codec.parse(lines[i]).value)
    ensures EndOf(Parsed(env, lines)) == env.codec.parse(lines[i]).value.digest
  {
    var n := |lines| - 1;
    if i < n {
      SeedsFromLast(env, lines[..n], i);
    } else {
      NextWraps(env.codec.parse(lines[n]).value.number);
    }
  }

  /** With none it starts at genesis. */
  lemma {:induction false} SeedsFromNone(env: Env, lines: seq<Text>)
    requires forall j :: 0 <= j < |lines| ==> env.codec.parse(lines[j]).None?
    ensures NextOf(Parsed(env, lines)) == 0 && EndOf(Parsed(env, lines)) == GENESIS
  {
    if lines != [] {
      SeedsFromNone(env, lines[..|lines| - 1]);
    }
  }

  lemma NextWraps(n: U64)
    ensures (n + 1) % U64_LIMIT == if n == U64_LIMIT - 1 then 0 else n + 1
  {
  }

  /** The same of a ledger just loaded. */
  lemma LoadedGoesOn(env: Env, file: Option<Text>, truncates: bool, i: nat)
    requires LastParsed(env, Lines(Loaded(env, file, truncates).Bytes()), i)
    ensures var st := Loaded(env, file, truncates);
            var rec := env.codec.parse(Lines(st.Bytes())[i]).value;
            st.next == After(rec) && st.prev == rec.digest
  {
    SeedsFromLast(env, Lines(Loaded(env, file, truncates).Bytes()), i);
  }

  // ---- the integrity records ----------------------------------------------

  /** A record of a removed tail: how many bytes, and their hash as text. */
  ghost predicate NotesRemoval(env: Env, r: Record, removed: Text) {
    && r.kind == LedgerIntegrity
    && r.payload.Get("finding") == Some(One(Str("partial_final_line")))
    && r.payload.Get("removed_bytes") == Some(One(Number(|removed| % U64_LIMIT)))
    && exists hex: string :: r.payload.Get("removed_sha256") == Some(One(Str(hex))) && Spells(hex, env.hash(removed))
  }

  ghost predicate Spells(s: string, t: Text) {
    |s| == |t| && forall i :: 0 <= i < |s| ==> s[i] as int == t[i]
  }

  /** A record of a break: at which number. */
  ghost predicate NotesBreak(r: Record, k: nat) {
    && r.kind == LedgerIntegrity
    && r.payload.Get("finding") == Some(One(Str("chain_break")))
    && r.payload.Get("first_break_seq") == Some(One(Number(k % U64_LIMIT)))
  }

  lemma TornNote(env: Env, removed: Text)
    ensures NotesRemoval(env, Record(LedgerIntegrity, TornPayload(env.hash, removed)), removed)
  {
    var digest := env.hash(removed);
    var hex := seq(|digest|, i requires 0 <= i < |digest| => digest[i] as char);
    assert Spells(hex, digest);
    assert "finding"[0] != "removed_bytes"[0] && "finding"[0] != "removed_sha256"[0];
    assert "removed_bytes"[8] != "removed_sha256"[8];
    assert TornPayload(env.hash, removed).Get("removed_sha256") == Some(One(Str(hex)));
  }

  lemma BreakNote(k: nat)
    ensures NotesBreak(Record(LedgerIntegrity, BreakPayload(k)), k)
  {
    assert "finding"[1] != "first_break_seq"[1] || "finding"[2] != "first_break_seq"[2];
  }

  /** A replay that goes on from another with a given next record. */
  ghost predicate GoesOnWith(rs: seq<Record>, before: seq<Record>, r: Record) {
    before + [r] <= rs
  }

  lemma CheckOnlyAdds(env: Env, st: Ledger, io: Io)
    requires env.Lawful() && env.codec.valid(st.prev)
    ensures History(env, st.Bytes()) <= History(env, CheckStep(env, st, io).Bytes())
  {
    var found := FirstBreak(env, st);
    if found.Some? && found !in st.breaks {
      AppendHistory(env, st.(breaks := st.breaks + {found}), LedgerIntegrity, BreakPayload(found.value), io);
    }
  }

  /** Opening a file with a torn tail that can be cut off and noted: the file then
      replays to what it did without the tail, and next to a record with the
      tail's length and hash. */
  lemma RemovalNoted(env: Env, file: Option<Text>, io: OpenIo)
    requires env.Lawful() && Removed(env, file, io.truncates) != []
    requires Persists(env, Loaded(env, file, io.truncates), LedgerIntegrity,
                      TornPayload(env.hash, Removed(env, file, io.truncates)), io.repair)
    ensures exists r ::
              && GoesOnWith(History(env, OpenStep(env, file, io).Bytes()),
                            History(env, Loaded(env, file, io.truncates).Bytes()), r)
              && NotesRemoval(env, r, Removed(env, file, io.truncates))
  {
    var loaded, removed := Loaded(env, file, io.truncates), Removed(env, file, io.truncates);
    var payload := TornPayload(env.hash, removed);
    EndValid(env, Lines(loaded.Bytes()));
    AppendHistory(env, loaded, LedgerIntegrity, payload, io.repair);
    CheckOnlyAdds(env, AppendStep(env, loaded, LedgerIntegrity, payload, io.repair), io.check);
    TornNote(env, removed);
    assert GoesOnWith(History(env, OpenStep(env, file, io).Bytes()), History(env, loaded.Bytes()),
                      Record(LedgerIntegrity, payload));
  }

  /** A check that finds a break the ledger does not know, and can note it, adds
      one record that names it. */
  lemma BreakNoted(env: Env, st: Ledger, io: Io)
    requires env.Lawful() && env.codec.valid(st.prev)
    requires FirstBreak(env, st).Some? && FirstBreak(env, st) !in st.breaks
    requires Persists(env, st.(breaks := st.breaks + {FirstBreak(env, st)}), LedgerIntegrity,
                      BreakPayload(FirstBreak(env, st).value), io)
    ensures exists r ::
              && History(env, CheckStep(env, st, io).Bytes()) == History(env, st.Bytes()) + [r]
              && NotesBreak(r, FirstBreak(env, st).value)
  {
    var k := FirstBreak(env, st).value;
    AppendHistory(env, st.(breaks := st.breaks + {Some(k)}), LedgerIntegrity, BreakPayload(k), io);
    BreakNote(k);
  }

  /** Where a check reports a break: at the record that does not continue the chain,
      or, when the chain holds, at the number of records left if this process
      knows of more. */
  lemma FirstBreakIff(env: Env, st: Ledger)
    requires env.codec.SkipsBlanks() && |st.Bytes()| <= MAX_FILE
    ensures FirstBreak(env, st).None? <==>
              Chained(env, Records(env, st.Bytes())) && Verify(env, st.Bytes()).Good?
              && |Records(env, st.Bytes())| >= st.next
    ensures Verify(env, st.Bytes()).Good? && |Records(env, st.Bytes())| < st.next ==>
              FirstBreak(env, st) == Some(|Records(env, st.Bytes())|)
  {
    IntactIffChained(env, Lines(st.Bytes()));
    if Verify(env, st.Bytes()).Good? {
      IntactCount(env, st.Bytes());
    }
  }

  // ---- blank lines --------------------------------------------------------

  /** Space, tab, newline, form feed and carriage return. */
  const ASCII_WHITESPACE: set<int> := {0x20, 0x09, 0x0a, 0x0c, 0x0d}

  /** A line is blank exactly if all its bytes are whitespace. */
  lemma {:induction false} BlankIff(t: Text)
    ensures Blank(t) <==> forall b <- t :: b in ASCII_WHITESPACE
  {
    if t != [] {
      BlankIff(t[1..]);
      assert t[0] in t && forall b <- t[1..] :: b in t;
      assert t == [t[0]] + t[1..];
    }
  }

  /** Trimming takes off exactly the whitespace at the end. */
  lemma {:induction false} TrimEndIs(t: Text)
    ensures TrimEnd(t) <= t && forall b <- t[|TrimEnd(t)|..] :: b in ASCII_WHITESPACE
    ensures TrimEnd(t) != [] ==> TrimEnd(t)[|TrimEnd(t)| - 1] !in ASCII_WHITESPACE
  {
    if t != [] && Whitespace(t[|t| - 1]) {
      var init := t[..|t| - 1];
      TrimEndIs(init);
      assert t[|TrimEnd(t)|..] == init[|TrimEnd(t)|..] + [t[|t| - 1]];
    }
  }
}
