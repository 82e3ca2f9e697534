/** Tamper evidence on the file itself: what `verify_chain` answers after a record
    of an intact file is edited, inserted or removed. */
module LedgerTamper {
  import opened Common
  import opened LedgerFormat
  import opened LedgerChain
  import opened LedgerFile

  /** A file is `head`, one line and `tail`. */
  ghost predicate HoldsLine(head: Text, line: Text, tail: Text) {
    Terminated(head) && NEWLINE !in line && (tail == [] || tail[0] == NEWLINE)
  }

  /** The lines after it. */
  function After(tail: Text): seq<Text> {
    if tail == [] then [] else Lines(tail[1..])
  }

  lemma LinesAround(head: Text, line: Text, tail: Text)
    requires HoldsLine(head, line, tail)
    ensures Lines(head + line + tail) == Body(head) + [line] + After(tail)
  {
    SinglePiece(line, NEWLINE);
    assert head + line + tail == head + (line + tail);
    BodyJoin(head, line + tail);
    if tail == [] {
      assert line + tail == line;
    } else {
      assert line + tail == line + [NEWLINE] + tail[1..];
      SplitAt(line, NEWLINE, tail[1..]);
    }
  }

  // ---- on the lines of a file ---------------------------------------------

  lemma OneMoreParsed(env: Env, a: seq<Text>, t: Text)
    ensures Parsed(env, a + [t]) == Parsed(env, a) + ParsedLine(env, t)
  {
    assert (a + [t])[..|a|] == a;
  }

  /** The first record after a chain links to it. */
  lemma FirstLinks(env: Env, a: seq<Line>, b: seq<Line>)
    requires Chained(env, a + b) && b != []
    ensures Links(env, b[0], |a|, EndOf(a))
  {
    ChainedAt(env, a + b, |a|);
    assert (a + b)[|a|] == b[0] && (a + b)[..|a|] == a;
  }

  lemma LinkedLine(env: Env, a: seq<Text>, t: Text)
    requires Walk(env, a).Good? && !Blank(t) && env.codec.parse(t).Some?
    requires Links(env, env.codec.parse(t).value, Walk(env, a).records, Walk(env, a).prev)
    ensures Walk(env, a + [t]) == Good(Walk(env, a).records + 1, env.codec.parse(t).value.digest)
  {
    assert (a + [t])[..|a|] == a;
  }

  /** What follows an intact stretch of lines begins with a record that links. */
  lemma NextLinks(env: Env, a: seq<Text>, rest: seq<Text>)
    requires env.codec.SkipsBlanks() && Walk(env, a + rest).Good? && Parsed(env, rest) != []
    ensures Walk(env, a) == Good(|Parsed(env, a)|, EndOf(Parsed(env, a))) && AllRecords(env, rest)
    ensures Links(env, Parsed(env, rest)[0], |Parsed(env, a)|, EndOf(Parsed(env, a)))
  {
    IntactPrefix(env, a, rest);
    FirstLinks(env, Parsed(env, a), Parsed(env, rest));
  }

  /** The record on a visible line of an intact file. */
  lemma RecordHere(env: Env, a: seq<Text>, line: Text, rest: seq<Text>) returns (was: Line)
    requires env.codec.SkipsBlanks() && !Blank(line) && Walk(env, a + [line] + rest).Good?
    ensures env.codec.parse(line) == Some(was) && env.seal(was) == was.digest
    ensures Walk(env, a) == Good(|Parsed(env, a)|, EndOf(Parsed(env, a)))
    ensures Parsed(env, a + [line]) == Parsed(env, a) + [was] && EndOf(Parsed(env, a + [line])) == was.digest
  {
    IntactPrefix(env, a + [line], rest);
    IntactPrefix(env, a, [line]);
    assert [line][0] == line;
    was := env.codec.parse(line).value;
    OneMoreParsed(env, a, line);
    ChainedExtends(env, Parsed(env, a), was);
    OneLine(env, line);
  }

  lemma EditedLines(env: Env, a: seq<Text>, line: Text, text: Text, rest: seq<Text>)
    requires env.Seals() && env.codec.SkipsBlanks() && env.codec.CleanPayloads()
    requires Walk(env, a + [line] + rest).Good? && !Blank(line) && Parsed(env, rest) != []
    requires env.codec.parse(line).Some? ==> Unseparated(env.codec.parse(line).value)
    requires !Blank(text) && env.codec.parse(text) != env.codec.parse(line)
    ensures EditShows(env, Walk(env, a + [text] + rest), |Parsed(env, a)|, line, text)
  {
    var was := RecordHere(env, a, line, rest);
    NextLinks(env, a + [line], rest);
    var now := env.codec.parse(text);
    if now.None? || !Links(env, now.value, Walk(env, a).records, Walk(env, a).prev) {
      UnlinkedLine(env, a, text, rest);
    } else if now.value.digest != was.digest {
      LinkedLine(env, a, text);
      NextRecordDecides(env, a + [text], rest);
    } else {
      SealsDiffer(env, was, now.value);
    }
  }

  /** Reported at record k or the next, or `line` and `text` are records whose
      digest inputs are different texts with one hash. */
  ghost predicate EditShows(env: Env, now: Walked, k: nat, line: Text, text: Text) {
    || now == Bad(k)
    || now == Bad(k + 1)
    || (&& env.codec.parse(line).Some? && env.codec.parse(text).Some?
        && Collision(env, Preimage(env.codec.parse(line).value), Preimage(env.codec.parse(text).value)))
  }

  lemma InsertedLines(env: Env, a: seq<Text>, text: Text, rest: seq<Text>)
    requires env.codec.SkipsBlanks() && Walk(env, a + rest).Good? && Parsed(env, rest) != [] && !Blank(text)
    ensures var now, k := Walk(env, a + [text] + rest), |Parsed(env, a)|;
            now == Bad(k) || now == Bad(k + 1)
  {
    NextLinks(env, a, rest);
    var now := env.codec.parse(text);
    if now.None? || !Links(env, now.value, Walk(env, a).records, Walk(env, a).prev) {
      UnlinkedLine(env, a, text, rest);
    } else {
      LinkedLine(env, a, text);
      NextRecordDecides(env, a + [text], rest);
    }
  }

  lemma RemovedLines(env: Env, a: seq<Text>, gone: seq<Text>, rest: seq<Text>)
    requires env.codec.SkipsBlanks() && Walk(env, a + gone + rest).Good?
    requires Parsed(env, gone) != [] && Parsed(env, rest) != []
    ensures Walk(env, a + rest) == Bad(|Parsed(env, a)|)
  {
    NextLinks(env, a + gone, rest);
    IntactPrefix(env, a, gone);
    ParsedJoin(env, a, gone);
    NextRecordDecides(env, a, rest);
  }

  lemma {:induction false} BlanksKeep(env: Env, a: seq<Text>, b: seq<Text>)
    requires AllBlank(b)
    ensures Walk(env, a + b) == Walk(env, a)
  {
    if b == [] {
      assert a + b == a;
    } else {
      var n := |b| - 1;
      BlanksKeep(env, a, b[..n]);
      assert a + b == a + b[..n] + [b[n]];
      BlankLine(env, a + b[..n], b[n]);
    }
  }

  // ---- on the file --------------------------------------------------------

  /** Replacing the text of a record that is not last by a visible text that reads
      differently is reported at that record or at the next, or the two records'
      digest inputs are different texts with one hash. */
  lemma EditReported(env: Env, head: Text, line: Text, tail: Text, text: Text)
    requires env.Seals() && env.codec.SkipsBlanks() && env.codec.CleanPayloads()
    requires HoldsLine(head, line, tail) && Verify(env, head + line + tail).Good?
    requires !Blank(line) && Parsed(env, After(tail)) != []
    requires env.codec.parse(line).Some? ==> Unseparated(env.codec.parse(line).value)
    requires NEWLINE !in text && !Blank(text) && env.codec.parse(text) != env.codec.parse(line)
    ensures EditShows(env, Verify(env, head + text + tail), |Records(env, head)|, line, text)
  {
    LinesAround(head, line, tail);
    LinesAround(head, text, tail);
    BodyWalk(env, head);
    EditedLines(env, Body(head), line, text, After(tail));
  }

  /** A visible line put before a record is reported at its place or at the next,
      whatever it holds and whatever the hash. */
  lemma InsertionReported(env: Env, head: Text, text: Text, rest: Text)
    requires env.codec.SkipsBlanks() && Terminated(head) && NEWLINE !in text && !Blank(text)
    requires Verify(env, head + rest).Good? && Records(env, rest) != []
    ensures var now, k := Verify(env, head + text + ([NEWLINE] + rest)), |Records(env, head)|;
            now == Bad(k) || now == Bad(k + 1)
  {
    LinesAround(head, text, [NEWLINE] + rest);
    assert After([NEWLINE] + rest) == Lines(rest);
    BodyJoin(head, rest);
    BodyWalk(env, head);
    InsertedLines(env, Body(head), text, Lines(rest));
  }

  /** Removing any stretch of lines with a record in it and a record after it is
      reported at the number of records before it, whatever the hash. */
  lemma RemovalReported(env: Env, head: Text, gone: Text, rest: Text)
    requires env.codec.SkipsBlanks() && Terminated(head) && Terminated(gone)
    requires Verify(env, head + gone + rest).Good? && Records(env, gone) != [] && Records(env, rest) != []
    ensures Verify(env, head + rest) == Bad(|Records(env, head)|)
  {
    LinesOfThree(head, gone, rest);
    BodyJoin(head, rest);
    BodyWalk(env, head);
    BodyWalk(env, gone);
    RemovedLines(env, Body(head), Body(gone), Lines(rest));
  }

  lemma {:induction false} LinesOfThree(a: Text, b: Text, c: Text)
    requires Terminated(a) && Terminated(b)
    ensures Lines(a + b + c) == Body(a) + Body(b) + Lines(c)
  {
    Regroup(a, b, c);
    BodyJoin(b, c);
    BodyJoin(a, b + c);
    Regroup(Body(a), Body(b), Lines(c));
  }

  /** Lines cut from the end leave a file that verifies: only a process that
      remembers the count can tell. */
  lemma TruncationUnseen(env: Env, head: Text, gone: Text)
    requires env.codec.SkipsBlanks() && Terminated(head) && Verify(env, head + gone).Good?
    ensures Verify(env, head) == Good(|Records(env, head)|, EndOf(Records(env, head)))
  {
    BodyJoin(head, gone);
    BodyWalk(env, head);
    IntactPrefix(env, Body(head), Lines(gone));
  }

  /** The last record is not protected: any text that links in its place, sealed
      by its own hash, verifies. */
  lemma LastEditUnseen(env: Env, head: Text, line: Text, tail: Text, text: Text)
    requires env.codec.SkipsBlanks() && HoldsLine(head, line, tail) && Verify(env, head + line + tail).Good?
    requires AllBlank(After(tail)) && NEWLINE !in text && !Blank(text) && env.codec.parse(text).Some?
    requires Links(env, env.codec.parse(text).value, |Records(env, head)|, EndOf(Records(env, head)))
    ensures Verify(env, head + text + tail) == Good(|Records(env, head)| + 1, env.codec.parse(text).value.digest)
  {
    LinesAround(head, line, tail);
    LinesAround(head, text, tail);
    BodyWalk(env, head);
    LastLine(env, Body(head), line, text, After(tail));
  }

  lemma LastLine(env: Env, a: seq<Text>, line: Text, text: Text, rest: seq<Text>)
    requires env.codec.SkipsBlanks() && Walk(env, a + [line] + rest).Good? && AllBlank(rest)
    requires !Blank(text) && env.codec.parse(text).Some?
    requires Links(env, env.codec.parse(text).value, |Parsed(env, a)|, EndOf(Parsed(env, a)))
    ensures Walk(env, a + [text] + rest) == Good(|Parsed(env, a)| + 1, env.codec.parse(text).value.digest)
  {
    assert a + [line] + rest == a + ([line] + rest);
    IntactPrefix(env, a, [line] + rest);
    LinkedLine(env, a, text);
    BlanksKeep(env, a + [text], rest);
  }
}
