/** The ledger file as a byte string: appending a line, removing a torn tail,
    and what both do to the records it holds. */
module LedgerFile {
  import opened Common
  import opened LedgerFormat
  import opened LedgerChain

  /** Empty, or ending in a newline, as every append leaves it. */
  predicate Terminated(bytes: Text) {
    bytes == [] || bytes[|bytes| - 1] == NEWLINE
  }

  /** What `write_line` makes of the file: a missing final newline is supplied
      before the new line. */
  function Appended(bytes: Text, text: Text): Text {
    (if Terminated(bytes) then bytes else bytes + [NEWLINE]) + text + [NEWLINE]
  }

  /** The lines of a file without the empty piece after a final newline. */
  function Body(bytes: Text): seq<Text> {
    if Terminated(bytes) then Lines(bytes)[..|Lines(bytes)| - 1] else Lines(bytes)
  }

  lemma BodyLines(bytes: Text)
    ensures Lines(bytes) == if Terminated(bytes) then Body(bytes) + [[]] else Body(bytes)
  {
    if bytes == [] {
    } else if Terminated(bytes) {
      var init := bytes[..|bytes| - 1];
      assert bytes == init + [NEWLINE] + [];
      SplitAt(init, NEWLINE, []);
    }
  }

  /** Two terminated stretches of a file split into their own lines. */
  lemma BodyJoin(a: Text, b: Text)
    requires Terminated(a)
    ensures Lines(a + b) == Body(a) + Lines(b)
  {
    if a == [] {
      assert a + b == b;
    } else {
      var init := a[..|a| - 1];
      assert a == init + [NEWLINE] && a == init + [NEWLINE] + [] && a + b == init + [NEWLINE] + b;
      SplitAt(init, NEWLINE, b);
      SplitAt(init, NEWLINE, []);
    }
  }

  lemma AppendedLines(bytes: Text, text: Text)
    requires NEWLINE !in text
    ensures Lines(Appended(bytes, text)) == Body(bytes) + [text] + [[]]
  {
    SplitAt(text, NEWLINE, []);
    SinglePiece(text, NEWLINE);
    assert text + [NEWLINE] + [] == text + [NEWLINE];
    if Terminated(bytes) {
      BodyJoin(bytes, text + [NEWLINE]);
      assert Appended(bytes, text) == bytes + (text + [NEWLINE]);
    } else {
      SplitAt(bytes, NEWLINE, text + [NEWLINE]);
      assert Appended(bytes, text) == bytes + [NEWLINE] + (text + [NEWLINE]);
    }
  }

  lemma BodyWalk(env: Env, bytes: Text)
    requires env.codec.SkipsBlanks()
    ensures Walk(env, Body(bytes)) == Verify(env, bytes)
    ensures Parsed(env, Body(bytes)) == Records(env, bytes)
    ensures ReadAll(env, Body(bytes)) == History(env, bytes)
  {
    BodyLines(bytes);
    if Terminated(bytes) {
      assert Lines(bytes)[..|Lines(bytes)| - 1] == Body(bytes);
    }
  }

  // ---- replay -------------------------------------------------------------

  function ReadLine(env: Env, t: Text): seq<Record> {
    var r := env.codec.read(t);
    if r.Some? then [r.value] else []
  }

  /** `read_records`: every line that reads as a typed record. */
  function ReadAll(env: Env, lines: seq<Text>): seq<Record> {
    if lines == [] then []
    else ReadAll(env, lines[..|lines| - 1]) + ReadLine(env, lines[|lines| - 1])
  }

  function History(env: Env, bytes: Text): seq<Record> { ReadAll(env, Lines(bytes)) }

  /** One appended line extends the walk, the records and the replay by that
      line and touches nothing before it. */
  lemma AppendExtends(env: Env, bytes: Text, text: Text)
    requires env.codec.SkipsBlanks() && NEWLINE !in text
    ensures Verify(env, Appended(bytes, text)) == WalkLine(env, text, Verify(env, bytes))
    ensures Records(env, Appended(bytes, text)) == Records(env, bytes) + ParsedLine(env, text)
    ensures History(env, Appended(bytes, text)) == History(env, bytes) + ReadLine(env, text)
    ensures Terminated(Appended(bytes, text))
  {
    AppendedLines(bytes, text);
    BodyWalk(env, bytes);
    OneMore(env, Body(bytes), text);
    OneMore(env, Body(bytes) + [text], []);
  }

  lemma OneMore(env: Env, lines: seq<Text>, t: Text)
    ensures Walk(env, lines + [t]) == WalkLine(env, t, Walk(env, lines))
    ensures Parsed(env, lines + [t]) == Parsed(env, lines) + ParsedLine(env, t)
    ensures ReadAll(env, lines + [t]) == ReadAll(env, lines) + ReadLine(env, t)
  {
    assert (lines + [t])[..|lines|] == lines;
  }

  /** A break the file already shows keeps its seq under every later append. */
  lemma BreakStands(env: Env, bytes: Text, text: Text)
    requires env.codec.SkipsBlanks() && NEWLINE !in text && Verify(env, bytes).Bad?
    ensures Verify(env, Appended(bytes, text)) == Verify(env, bytes)
  {
    AppendExtends(env, bytes, text);
  }

  lemma {:induction false} SplitLength(s: Text)
    ensures |Split(s, NEWLINE)| <= |s| + 1
  {
    if s != [] {
      SplitLength(s[1..]);
    }
  }

  lemma {:induction false} ParsedLength(env: Env, lines: seq<Text>)
    ensures |Parsed(env, lines)| <= |lines|
  {
    if lines != [] {
      ParsedLength(env, lines[..|lines| - 1]);
    }
  }

  /** A file holds no more records than bytes, plus one. */
  lemma RecordCount(env: Env, bytes: Text)
    ensures |Records(env, bytes)| <= |bytes| + 1
  {
    SplitLength(bytes);
    ParsedLength(env, Lines(bytes));
  }

  // ---- the torn tail ------------------------------------------------------

  /** The length of the first line with its newline. */
  function LineLength(bytes: Text): (n: nat)
    requires bytes != []
    ensures 0 < n <= |bytes|
  {
    if bytes[0] == NEWLINE || |bytes| == 1 then 1 else 1 + LineLength(bytes[1..])
  }

  lemma {:induction false} LineLengthIs(bytes: Text)
    requires bytes != []
    ensures var n := LineLength(bytes);
            NEWLINE !in bytes[..n - 1] && (bytes[n - 1] == NEWLINE || n == |bytes|)
  {
    if bytes[0] != NEWLINE && |bytes| > 1 {
      LineLengthIs(bytes[1..]);
      var n := LineLength(bytes);
      assert bytes[..n - 1] == [bytes[0]] + bytes[1..][..n - 2];
    }
  }

  /** Where the last visible line starts. */
  function TailStart(bytes: Text): (s: Option<nat>)
    ensures s.Some? ==> s.value < |bytes|
    decreases |bytes|
  {
    if bytes == [] then None
    else
      var n := LineLength(bytes);
      var later := TailStart(bytes[n..]);
      if later.Some? then Some(n + later.value)
      else if Blank(bytes[..n]) then None
      else Some(0)
  }

  /** The tail of `rest`, which starts at `offset`, or the one found before it. */
  ghost function TailFrom(rest: Text, offset: nat, tail: Option<nat>): Option<nat> {
    var later := TailStart(rest);
    if later.Some? then Some(offset + later.value) else tail
  }

  lemma {:induction false} TailStep(rest: Text, offset: nat, tail: Option<nat>)
    requires rest != []
    ensures var n := LineLength(rest);
            TailFrom(rest, offset, tail) ==
            TailFrom(rest[n..], offset + n, if Blank(rest[..n]) then tail else Some(offset))
  {
  }

  /** Lines 471-480: one pass over the lines with a running offset. */
  method FindTail(bytes: Text) returns (tail: Option<nat>)
    ensures tail == TailStart(bytes)
  {
    var offset, rest := 0, bytes;
    tail := None;
    while rest != []
      invariant TailFrom(rest, offset, tail) == TailStart(bytes)
      decreases |rest|
    {
      var n := LineLength(rest);
      TailStep(rest, offset, tail);
      if !Blank(rest[..n]) {
        tail := Some(offset);
      }
      offset, rest := offset + n, rest[n..];
    }
  }

  /** `repair_torn_tail`: what is removed from the end, if anything. */
  function TornTail(env: Env, bytes: Text): (removed: Text)
    ensures |removed| <= |bytes| && removed == bytes[|bytes| - |removed|..]
  {
    var s := TailStart(bytes);
    if s.None? || env.codec.parse(TrimEnd(bytes[s.value..])).Some? then [] else bytes[s.value..]
  }

  function Repaired(env: Env, bytes: Text): (kept: Text)
    ensures kept + TornTail(env, bytes) == bytes
  {
    bytes[..|bytes| - |TornTail(env, bytes)|]
  }

  predicate AllBlank(lines: seq<Text>) {
    forall i :: 0 <= i < |lines| ==> Blank(lines[i])
  }

  lemma {:induction false} BlankPieces(bytes: Text)
    ensures Blank(bytes) <==> AllBlank(Lines(bytes))
  {
    if bytes != [] {
      BlankPieces(bytes[1..]);
      var rest, all := Lines(bytes[1..]), Lines(bytes);
      if bytes[0] == NEWLINE {
        assert forall i :: 0 <= i < |rest| ==> all[i + 1] == rest[i];
      } else {
        assert forall i :: 1 <= i < |rest| ==> all[i] == rest[i];
        assert all[0][1..] == rest[0];
        assert AllBlank(all) ==> Blank(all[0]) && Blank(rest[0]);
      }
    }
  }

  /** A line start with a visible line and nothing visible after it. */
  ghost predicate LastVisible(bytes: Text, s: nat) {
    && s <= |bytes|
    && Terminated(bytes[..s])
    && !Blank(Lines(bytes[s..])[0])
    && AllBlank(Lines(bytes[s..])[1..])
  }

  /** The tail found is the last visible line; no tail means nothing visible. */
  lemma {:induction false} TailIsLastVisible(bytes: Text)
    ensures TailStart(bytes).None? ==> Blank(bytes)
    ensures TailStart(bytes).Some? ==> LastVisible(bytes, TailStart(bytes).value)
    decreases |bytes|
  {
    if bytes != [] {
      var n := LineLength(bytes);
      TailIsLastVisible(bytes[n..]);
      if TailStart(bytes[n..]).Some? {
        LineLengthIs(bytes);
        ShiftTail(bytes, n, TailStart(bytes[n..]).value);
      } else if Blank(bytes[..n]) {
        assert bytes == bytes[..n] + bytes[n..];
        BlankJoin(bytes[..n], bytes[n..]);
      } else {
        LoneVisible(bytes);
      }
    }
  }

  lemma ShiftTail(bytes: Text, n: nat, s: nat)
    requires 0 < n < |bytes| && bytes[n - 1] == NEWLINE && LastVisible(bytes[n..], s)
    ensures LastVisible(bytes, n + s)
  {
    var rest := bytes[n..];
    assert bytes[n + s..] == rest[s..];
    assert bytes[..n + s] == bytes[..n] + rest[..s];
  }

  lemma LoneVisible(bytes: Text)
    requires bytes != [] && !Blank(bytes[..LineLength(bytes)]) && Blank(bytes[LineLength(bytes)..])
    ensures bytes[0..] == bytes
    ensures !Blank(Lines(bytes)[0]) && AllBlank(Lines(bytes)[1..])
  {
    var n := LineLength(bytes);
    LineLengthIs(bytes);
    FirstLine(bytes);
    BlankPieces(bytes[n..]);
    BlankInit(bytes[..n]);
    if bytes[n - 1] == NEWLINE {
      assert bytes[..n][..n - 1] == bytes[..n - 1];
    } else {
      assert bytes[..n] == bytes;
    }
  }

  lemma {:induction false} FirstLine(bytes: Text)
    requires bytes != []
    ensures var n := LineLength(bytes);
            && Lines(bytes)[0] == (if bytes[n - 1] == NEWLINE then bytes[..n - 1] else bytes)
            && Lines(bytes)[1..] == (if bytes[n - 1] == NEWLINE then Lines(bytes[n..]) else [])
  {
    var n := LineLength(bytes);
    LineLengthIs(bytes);
    if bytes[n - 1] == NEWLINE {
      assert bytes == bytes[..n - 1] + [NEWLINE] + bytes[n..];
      SplitAt(bytes[..n - 1], NEWLINE, bytes[n..]);
      SinglePiece(bytes[..n - 1], NEWLINE);
    } else {
      assert bytes == bytes[..n - 1] + [bytes[n - 1]];
      SinglePiece(bytes, NEWLINE);
    }
  }

  lemma {:induction false} BlankJoin(a: Text, b: Text)
    ensures Blank(a + b) <==> Blank(a) && Blank(b)
  {
    if a == [] {
      assert a + b == b;
    } else {
      assert (a + b)[1..] == a[1..] + b;
      BlankJoin(a[1..], b);
    }
  }

  lemma BlankInit(t: Text)
    ensures t != [] && t[|t| - 1] == NEWLINE ==> (Blank(t) <==> Blank(t[..|t| - 1]))
  {
    if t != [] && t[|t| - 1] == NEWLINE {
      assert t == t[..|t| - 1] + [NEWLINE];
      BlankJoin(t[..|t| - 1], [NEWLINE]);
    }
  }

  /** There is one last visible line. */
  lemma LastVisibleUnique(bytes: Text, s: nat, u: nat)
    requires LastVisible(bytes, s) && LastVisible(bytes, u)
    ensures s == u
  {
    if s < u {
      NoneAfter(bytes, s, u);
    } else if u < s {
      NoneAfter(bytes, u, s);
    }
  }

  lemma NoneAfter(bytes: Text, s: nat, u: nat)
    requires LastVisible(bytes, s) && s < u <= |bytes| && Terminated(bytes[..u])
    ensures Blank(Lines(bytes[u..])[0])
  {
    var gap := bytes[s..u];
    assert gap[|gap| - 1] == bytes[..u][u - 1];
    assert bytes[s..] == gap + bytes[u..];
    BodyJoin(gap, bytes[u..]);
    BodyLines(gap);
    var all := Lines(bytes[s..]);
    FirstLine(gap);
    assert |Body(gap)| >= 1;
    assert all[|Body(gap)|] == Lines(bytes[u..])[0];
    assert all[1..][|Body(gap)| - 1] == all[|Body(gap)|];
  }

  lemma TailFound(bytes: Text, s: nat)
    requires LastVisible(bytes, s)
    ensures TailStart(bytes) == Some(s)
  {
    TailIsLastVisible(bytes);
    if TailStart(bytes).None? {
      assert bytes == bytes[..s] + bytes[s..];
      BlankJoin(bytes[..s], bytes[s..]);
      BlankPieces(bytes[s..]);
    } else {
      LastVisibleUnique(bytes, s, TailStart(bytes).value);
    }
  }

  lemma {:induction false} TrimBlank(a: Text, b: Text)
    requires Blank(b)
    ensures TrimEnd(a + b) == TrimEnd(a)
    decreases |b|
  {
    if b == [] {
      assert a + b == a;
    } else {
      var init := b[..|b| - 1];
      assert b == init + [b[|b| - 1]];
      BlankJoin(init, [b[|b| - 1]]);
      assert (a + b)[..|a + b| - 1] == a + init;
      TrimBlank(a, init);
    }
  }

  /** The tail, trimmed, is its visible line, trimmed. */
  lemma {:induction false} TrimTail(bytes: Text)
    requires bytes != [] && AllBlank(Lines(bytes)[1..])
    ensures TrimEnd(bytes) == TrimEnd(Lines(bytes)[0])
  {
    var n := LineLength(bytes);
    FirstLine(bytes);
    if bytes[n - 1] == NEWLINE {
      BlankPieces(bytes[n..]);
      assert bytes == bytes[..n - 1] + [NEWLINE] + bytes[n..];
      TrimLine(bytes[..n - 1], bytes[n..]);
    }
  }

  lemma TrimLine(line: Text, after: Text)
    requires Blank(after)
    ensures TrimEnd(line + [NEWLINE] + after) == TrimEnd(line)
  {
    var rest := [NEWLINE] + after;
    assert rest[1..] == after && Blank(rest);
    assert line + [NEWLINE] + after == line + rest;
    TrimBlank(line, rest);
  }

  /** Repair removes nothing from a file whose visible lines are all records. */
  lemma RepairKeepsRecords(env: Env, bytes: Text)
    requires env.codec.TrimSafe() && AllRecords(env, Lines(bytes))
    ensures TornTail(env, bytes) == [] && Repaired(env, bytes) == bytes
  {
    TailIsLastVisible(bytes);
    if TailStart(bytes).Some? {
      var s := TailStart(bytes).value;
      var t := Lines(bytes[s..])[0];
      BodyJoin(bytes[..s], bytes[s..]);
      assert bytes == bytes[..s] + bytes[s..];
      assert Lines(bytes)[|Body(bytes[..s])|] == t;
      TrimTail(bytes[s..]);
    }
  }

  /** Repair removes at most the last visible line, and only one that is no
      record: every line before it stays in place. */
  lemma RepairRemovesOneLine(env: Env, bytes: Text)
    requires env.codec.TrimSafe() && TornTail(env, bytes) != []
    ensures Terminated(Repaired(env, bytes))
    ensures Lines(bytes) == Body(Repaired(env, bytes)) + Lines(TornTail(env, bytes))
    ensures !Blank(Lines(TornTail(env, bytes))[0]) && env.codec.parse(Lines(TornTail(env, bytes))[0]) == None
    ensures AllBlank(Lines(TornTail(env, bytes))[1..])
  {
    TailIsLastVisible(bytes);
    var s := TailStart(bytes).value;
    BodyJoin(bytes[..s], bytes[s..]);
    assert bytes == bytes[..s] + bytes[s..];
    TrimTail(bytes[s..]);
  }

  lemma {:induction false} TrimIsPrefix(t: Text)
    requires t != [] && !Whitespace(t[0])
    ensures TrimEnd(t) != [] && TrimEnd(t) <= t
  {
    if Whitespace(t[|t| - 1]) {
      TrimIsPrefix(t[..|t| - 1]);
    }
  }

  /** A crash inside an append leaves a proper prefix of the line's text; repair
      removes exactly that. */
  lemma TornPrefixRemoved(env: Env, l: Line, file: Text, cut: nat)
    requires env.codec.PrefixFree() && env.codec.PrintsVisibly() && env.codec.Printable(l)
    requires Terminated(file) && 0 < cut < |env.codec.write(l)|
    ensures TornTail(env, file + env.codec.write(l)[..cut]) == env.codec.write(l)[..cut]
    ensures Repaired(env, file + env.codec.write(l)[..cut]) == file
  {
    var text := env.codec.write(l);
    var p := text[..cut];
    assert p[0] == text[0] && forall b <- p :: b in text;
    TrimIsPrefix(p);
    assert TrimEnd(p) == text[..|TrimEnd(p)|];
    LoneTail(env, file, p);
  }

  /** An unterminated visible line that does not parse is exactly what is removed. */
  lemma LoneTail(env: Env, file: Text, p: Text)
    requires Terminated(file) && NEWLINE !in p && p != [] && !Whitespace(p[0])
    requires env.codec.parse(TrimEnd(p)) == None
    ensures TornTail(env, file + p) == p && Repaired(env, file + p) == file
  {
    LoneTailFound(file, p);
    assert (file + p)[|file|..] == p && (file + p)[..|file|] == file;
  }

  lemma LoneTailFound(file: Text, p: Text)
    requires Terminated(file) && NEWLINE !in p && p != [] && !Whitespace(p[0])
    ensures TailStart(file + p) == Some(|file|)
  {
    var bytes := file + p;
    assert bytes[..|file|] == file && bytes[|file|..] == p;
    SinglePiece(p, NEWLINE);
    assert LastVisible(bytes, |file|);
    TailFound(bytes, |file|);
  }
}
