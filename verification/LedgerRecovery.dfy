/** Crashes and partial writes: what any prefix of an append leaves in the file,
    and what opening makes of it. */
module LedgerRecovery {
  import opened Common
  import opened LedgerFormat
  import opened LedgerChain
  import opened LedgerFile
  import opened LedgerState

  // ---- what a prefix of an append holds -----------------------------------

  /** `found` is what a crash or a torn write left of appending `text`. */
  ghost predicate LeftBy(file: Text, text: Text, found: Text) {
    file <= found <= Appended(file, text)
  }

  /** How much of the text is there, after the newline the append may supply. */
  function TextLeft(file: Text, text: Text, found: Text): (left: nat)
    requires |file| <= |found|
    ensures left <= |text|
  {
    var cut, gap := |found| - |file|, if Terminated(file) then 0 else 1;
    if cut <= gap then 0 else Least(cut - gap, |text|)
  }

  /** The file with its last line ended. */
  function Ended(file: Text): (r: Text)
    ensures Terminated(r)
  {
    if Terminated(file) then file else file + [NEWLINE]
  }

  lemma LeftForms(file: Text, text: Text, found: Text)
    requires LeftBy(file, text, found)
    ensures var left := TextLeft(file, text, found);
            && (left == 0 ==> found == file || found == Ended(file) || found == Appended(file, text))
            && (left == 0 && found == Appended(file, text) ==> text == [])
            && (left > 0 ==> found == Ended(file) + text[..left] || (left == |text| && found == Appended(file, text)))
  {
    var whole := Appended(file, text);
    assert found == whole[..|found|];
    assert whole == Ended(file) + text + [NEWLINE];
  }

  /** A final newline more makes no difference to what the file holds. */
  lemma EndedSame(env: Env, file: Text)
    requires env.codec.SkipsBlanks()
    ensures Verify(env, Ended(file)) == Verify(env, file)
    ensures Records(env, Ended(file)) == Records(env, file)
    ensures History(env, Ended(file)) == History(env, file)
  {
    if !Terminated(file) {
      assert file + [NEWLINE] == file + [NEWLINE] + [];
      SplitAt(file, NEWLINE, []);
      OneMore(env, Lines(file), []);
    }
  }

  /** A last line without its newline counts like one with it. */
  lemma UnterminatedLine(env: Env, file: Text, text: Text)
    requires env.codec.SkipsBlanks() && Terminated(file) && NEWLINE !in text
    ensures Verify(env, file + text) == WalkLine(env, text, Verify(env, file))
    ensures Records(env, file + text) == Records(env, file) + ParsedLine(env, text)
    ensures History(env, file + text) == History(env, file) + ReadLine(env, text)
  {
    BodyJoin(file, text);
    SinglePiece(text, NEWLINE);
    BodyWalk(env, file);
    OneMore(env, Body(file), text);
  }

  /** Whatever prefix is left, the file holds its old records and what the part of
      the text that is there reads as. */
  lemma LeftHolds(env: Env, file: Text, text: Text, found: Text)
    requires env.codec.SkipsBlanks() && LeftBy(file, text, found) && NEWLINE !in text && text != []
    ensures var left := TextLeft(file, text, found);
            if left == 0 then
              && Verify(env, found) == Verify(env, file) && Records(env, found) == Records(env, file)
              && History(env, found) == History(env, file)
            else
              && Verify(env, found) == WalkLine(env, text[..left], Verify(env, file))
              && Records(env, found) == Records(env, file) + ParsedLine(env, text[..left])
              && History(env, found) == History(env, file) + ReadLine(env, text[..left])
  {
    var left := TextLeft(file, text, found);
    LeftForms(file, text, found);
    EndedSame(env, file);
    if left > 0 {
      if found == Ended(file) + text[..left] {
        UnterminatedLine(env, Ended(file), text[..left]);
      } else {
        assert text[..left] == text;
        AppendExtends(env, file, text);
      }
    }
  }

  /** For a printed line: nothing, an unreadable line, or the record. */
  lemma LeftOfLine(env: Env, file: Text, l: Line, found: Text)
    requires env.codec.Lawful() && env.codec.Printable(l) && LeftBy(file, env.codec.write(l), found)
    ensures var text := env.codec.write(l);
            var left := TextLeft(file, text, found);
            && text != [] && NEWLINE !in text
            && (0 < left < |text| ==>
                  !Blank(text[..left]) && env.codec.parse(text[..left]) == None && env.codec.read(text[..left]) == None)
            && (left == |text| ==> text[..left] == text && env.codec.parse(text) == Some(l) && !Blank(text))
            && Records(env, found) == Records(env, file) + if left == |text| then [l] else []
  {
    var text := env.codec.write(l);
    var left := TextLeft(file, text, found);
    assert text != [] && NEWLINE !in text;
    LeftHolds(env, file, text, found);
    if 0 < left {
      assert text[..left][0] == text[0];
    }
    assert text[..|text|] == text;
  }

  // ---- crash recovery -----------------------------------------------------

  /** The record of a removed partial line. */
  function Notes(env: Env, found: Text, removed: Text, io: OpenIo): seq<Line> {
    var note := TornPayload(env.hash, removed);
    var seeded := Loaded(env, Some(found), true);
    if Persists(env, seeded, LedgerIntegrity, note, io.repair)
    then [NextLine(env, seeded, LedgerIntegrity, note, io.repair.ts)] else []
  }

  /** What opening `found` leaves, when `found` holds the records `was` and the
      first `left` bytes of the text of `line`: an intact chain the cursor
      continues, with every earlier record; with the new record if its text is
      complete; and with one integrity record for a non-empty partial text, when
      that append reaches the disk. */
  ghost predicate Recovered(env: Env, was: seq<Line>, line: Line, text: Text, left: nat, found: Text, io: OpenIo)
    requires left <= |text|
  {
    var after := OpenStep(env, Some(found), io);
    && Synced(env, after)
    && Records(env, after.Bytes()) == was +
         if left == 0 then [] else if left == |text| then [line] else Notes(env, found, text[..left], io)
  }

  /** Opening an intact file changes nothing. */
  lemma OpenIntact(env: Env, file: Text, io: OpenIo)
    requires env.Lawful() && Verify(env, file).Good? && |file| <= MAX_FILE
    ensures OpenStep(env, Some(file), io).Bytes() == file
    ensures OpenStep(env, Some(file), io) == Loaded(env, Some(file), io.truncates)
    ensures Synced(env, OpenStep(env, Some(file), io))
  {
    LoadedSynced(env, Some(file), io.truncates);
  }

  /** Opening after a crash at any byte of an append to any intact file, also one
      whose last newline is missing: the append writes that newline first, and
      may crash there too. */
  lemma CrashRecovery(env: Env, st: Ledger, kind: Kind, payload: Json, ts: Stamp, found: Text, io: OpenIo)
    requires env.Lawful() && Synced(env, st) && io.truncates && !io.repair.outcome.Torn?
    requires LeftBy(st.Bytes(), NextText(env, st, kind, payload, ts), found) && |found| <= MAX_FILE
    ensures Recovered(env, Records(env, st.Bytes()), NextLine(env, st, kind, payload, ts),
                      NextText(env, st, kind, payload, ts),
                      TextLeft(st.Bytes(), NextText(env, st, kind, payload, ts), found), found, io)
  {
    var file, l, text := st.Bytes(), NextLine(env, st, kind, payload, ts), NextText(env, st, kind, payload, ts);
    var left := TextLeft(file, text, found);
    SyncedValid(env, st);
    NextLineLinks(env, st, kind, payload, ts);
    LeftOfLine(env, file, l, found);
    LeftHolds(env, file, text, found);
    if left == 0 || left == |text| {
      OpenIntact(env, found, io);
    } else {
      PartialText(env, file, l, found, left, io);
    }
  }

  /** The partial case: the text is removed, noted, and the chain goes on. */
  lemma PartialText(env: Env, file: Text, l: Line, found: Text, left: nat, io: OpenIo)
    requires env.Lawful() && Verify(env, file).Good? && env.codec.Printable(l) && |found| <= MAX_FILE
    requires io.truncates && !io.repair.outcome.Torn?
    requires LeftBy(file, env.codec.write(l), found) && left == TextLeft(file, env.codec.write(l), found)
    requires 0 < left < |env.codec.write(l)|
    ensures Recovered(env, Records(env, file), l, env.codec.write(l), left, found, io)
  {
    var text := env.codec.write(l);
    PartialRemoved(env, file, l, found, left);
    EndedSame(env, file);
    PartialOpened(env, Ended(file), found, text[..left], io);
  }

  lemma PartialRemoved(env: Env, file: Text, l: Line, found: Text, left: nat)
    requires env.codec.PrefixFree() && env.codec.PrintsVisibly() && env.codec.Printable(l)
    requires LeftBy(file, env.codec.write(l), found) && left == TextLeft(file, env.codec.write(l), found)
    requires 0 < left < |env.codec.write(l)|
    ensures TornTail(env, found) == env.codec.write(l)[..left] && Repaired(env, found) == Ended(file)
    ensures |Ended(file)| <= |found|
  {
    LeftForms(file, env.codec.write(l), found);
    TornPrefixRemoved(env, l, Ended(file), left);
  }

  lemma PartialOpened(env: Env, base: Text, found: Text, removed: Text, io: OpenIo)
    requires env.Lawful() && Verify(env, base).Good? && |base| <= MAX_FILE && removed != []
    requires io.truncates && !io.repair.outcome.Torn?
    requires TornTail(env, found) == removed && Repaired(env, found) == base
    ensures var after := OpenStep(env, Some(found), io);
            Synced(env, after) && Records(env, after.Bytes()) == Records(env, base) + Notes(env, found, removed, io)
  {
    var seeded := Loaded(env, Some(found), true);
    SeedSynced(env, Some(base), RecordedBreaks(History(env, base)));
    assert seeded == SeedTail(Some(base), Records(env, base), RecordedBreaks(History(env, base)));
    AppendKeepsSynced(env, seeded, LedgerIntegrity, TornPayload(env.hash, removed), io.repair);
  }

  // ---- torn writes within a process ---------------------------------------

  lemma TornFile(env: Env, st: Ledger, kind: Kind, payload: Json, io: Io)
    requires io.outcome.Torn?
    ensures var torn := AppendStep(env, st, kind, payload, io);
            && LeftBy(st.Bytes(), NextText(env, st, kind, payload, io.ts), torn.Bytes())
            && torn.next == st.next && torn.prev == st.prev && torn.breaks == st.breaks
  {
  }

  /** A write that tears and cannot be cut back is not silent. Once another record
      follows it in the same process the file is intact only if nothing of the
      torn text was left; else it shows a break at the torn record's number, or
      at the next if the whole text was left. */
  lemma TornThenAppendShows(env: Env, st: Ledger, kind: Kind, payload: Json, io: Io,
                            kind': Kind, payload': Json, io': Io)
    requires env.Lawful() && Synced(env, st) && io.outcome.Torn?
    requires Persists(env, AppendStep(env, st, kind, payload, io), kind', payload', io')
    ensures var torn, text := AppendStep(env, st, kind, payload, io), NextText(env, st, kind, payload, io.ts);
            && |st.Bytes()| <= |torn.Bytes()|
            && var left := TextLeft(st.Bytes(), text, torn.Bytes());
               var now := Verify(env, AppendStep(env, torn, kind', payload', io').Bytes());
               if left == 0 then now == Good(st.next + 1, NextLine(env, torn, kind', payload', io'.ts).digest)
               else now == Bad(if left < |text| then st.next else st.next + 1)
  {
    var torn := AppendStep(env, st, kind, payload, io);
    SyncedValid(env, st);
    TornFile(env, st, kind, payload, io);
    TornWalk(env, st, kind, payload, io.ts, torn.Bytes());
    AppendWrites(env, torn, kind', payload', io'.ts);
    NextLineLinks(env, torn, kind', payload', io'.ts);
  }

  /** What the file shows right after a torn write. */
  lemma TornWalk(env: Env, st: Ledger, kind: Kind, payload: Json, ts: Stamp, found: Text)
    requires env.Lawful() && Synced(env, st) && LeftBy(st.Bytes(), NextText(env, st, kind, payload, ts), found)
    ensures var text := NextText(env, st, kind, payload, ts);
            var left := TextLeft(st.Bytes(), text, found);
            text != [] && Verify(env, found) ==
              if left == 0 then Good(st.next, st.prev)
              else if left < |text| then Bad(st.next)
              else Good(st.next + 1, NextLine(env, st, kind, payload, ts).digest)
  {
    var l := NextLine(env, st, kind, payload, ts);
    SyncedValid(env, st);
    NextLineLinks(env, st, kind, payload, ts);
    LeftOfLine(env, st.Bytes(), l, found);
    LeftHolds(env, st.Bytes(), env.codec.write(l), found);
  }

  /** What is left of a line for a replay to read: its record, or nothing. */
  lemma LeftReads(env: Env, file: Text, l: Line, kind: Kind, payload: Json, found: Text)
    requires env.codec.Lawful() && env.codec.Printable(l) && LeftBy(file, env.codec.write(l), found)
    requires l.kind == Ascii(kind.Name()) && l.payload == env.codec.render(payload)
    ensures || History(env, found) == History(env, file)
            || History(env, found) == History(env, file) + [Record(kind, payload)]
  {
    LeftOfLine(env, file, l, found);
    LeftHolds(env, file, env.codec.write(l), found);
    WrittenLine(env.codec, l, kind, payload);
  }

  /** However an append ends, the file replays to what it did, or to its record
      more; a written one is always read. */
  lemma AppendHistory(env: Env, st: Ledger, kind: Kind, payload: Json, io: Io)
    requires env.Lawful() && env.codec.valid(st.prev)
    ensures var after := AppendStep(env, st, kind, payload, io);
            && env.codec.valid(after.prev)
            && (|| History(env, after.Bytes()) == History(env, st.Bytes())
                || History(env, after.Bytes()) == History(env, st.Bytes()) + [Record(kind, payload)])
            && (Persists(env, st, kind, payload, io) ==>
                  History(env, after.Bytes()) == History(env, st.Bytes()) + [Record(kind, payload)])
  {
    NextLineLinks(env, st, kind, payload, io.ts);
    if Persists(env, st, kind, payload, io) {
      AppendWrites(env, st, kind, payload, io.ts);
    } else if io.outcome.Torn? {
      TornFile(env, st, kind, payload, io);
      LeftReads(env, st.Bytes(), NextLine(env, st, kind, payload, io.ts), kind, payload,
                AppendStep(env, st, kind, payload, io).Bytes());
    }
  }
}
