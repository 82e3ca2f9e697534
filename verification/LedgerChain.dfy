/** `verify_chain` and what an intact chain proves about its records. */
module LedgerChain {
  import opened Common
  import opened LedgerFormat

  // ---- the walk -----------------------------------------------------------

  /** Whether `l` is the record a chain of `n` records ending in `prev` needs. */
  predicate Links(env: Env, l: Line, n: nat, prev: Text) {
    l.number == n && l.prev == prev && env.seal(l) == l.digest
  }

  /** A walk's state after some lines: an intact chain, or the break's seq. */
  datatype Walked = Good(records: nat, prev: Text) | Bad(at: nat)

  function WalkLine(env: Env, line: Text, w: Walked): Walked {
    if w.Bad? || Blank(line) then w
    else
      var l := env.codec.parse(line);
      if l.Some? && Links(env, l.value, w.records, w.prev) then Good(w.records + 1, l.value.digest)
      else Bad(w.records)
  }

  function Walk(env: Env, lines: seq<Text>): Walked {
    if lines == [] then Good(0, GENESIS)
    else WalkLine(env, lines[|lines| - 1], Walk(env, lines[..|lines| - 1]))
  }

  function Lines(bytes: Text): seq<Text> { Split(bytes, NEWLINE) }

  function Verify(env: Env, bytes: Text): Walked { Walk(env, Lines(bytes)) }

  /** Lines 514-562: the loop over the file's lines. */
  method VerifyChain(env: Env, bytes: Text) returns (r: Walked)
    ensures r == Verify(env, bytes)
  {
    var lines := Lines(bytes);
    var records, expectedPrev := 0, GENESIS;
    for index := 0 to |lines|
      invariant Walk(env, lines[..index]) == Good(records, expectedPrev)
    {
      var raw := lines[index];
      assert lines[..index + 1][..index] == lines[..index];
      if !Blank(raw) {
        var rec := env.codec.parse(raw);
        if rec.None? || rec.value.number != records || rec.value.prev != expectedPrev
           || env.seal(rec.value) != rec.value.digest
        {
          BadStays(env, lines, index + 1);
          return Bad(records);
        }
        expectedPrev := rec.value.digest;
        records := records + 1;
      }
    }
    assert lines[..|lines|] == lines;
    return Good(records, expectedPrev);
  }

  lemma WalkStep(env: Env, lines: seq<Text>, k: nat)
    requires k < |lines|
    ensures Walk(env, lines[..k + 1]) == WalkLine(env, lines[k], Walk(env, lines[..k]))
  {
    assert lines[..k + 1][..k] == lines[..k];
  }

  /** The first break decides: later lines do not change it. */
  lemma {:induction false} BadStays(env: Env, lines: seq<Text>, k: nat)
    requires k <= |lines| && Walk(env, lines[..k]).Bad?
    ensures Walk(env, lines) == Walk(env, lines[..k])
    decreases |lines| - k
  {
    if k == |lines| {
      assert lines[..k] == lines;
    } else {
      WalkStep(env, lines, k);
      BadStays(env, lines, k + 1);
    }
  }

  // ---- the records a walk accepts -----------------------------------------

  function ParsedLine(env: Env, t: Text): seq<Line> {
    var l := env.codec.parse(t);
    if l.Some? then [l.value] else []
  }

  /** Every line that parses, in file order. */
  function Parsed(env: Env, lines: seq<Text>): seq<Line> {
    if lines == [] then []
    else Parsed(env, lines[..|lines| - 1]) + ParsedLine(env, lines[|lines| - 1])
  }

  function Records(env: Env, bytes: Text): seq<Line> { Parsed(env, Lines(bytes)) }

  /** The digest the next record must link to. */
  function EndOf(ls: seq<Line>): Text {
    if ls == [] then GENESIS else ls[|ls| - 1].digest
  }

  /** Contiguous numbers from 0, each `prev` the digest before, each digest its
      record's own. */
  ghost predicate Chained(env: Env, ls: seq<Line>) {
    ls == [] ||
    (Chained(env, ls[..|ls| - 1]) && Links(env, ls[|ls| - 1], |ls| - 1, EndOf(ls[..|ls| - 1])))
  }

  lemma {:induction false} ChainedAt(env: Env, ls: seq<Line>, i: nat)
    requires Chained(env, ls) && i <= |ls|
    ensures Chained(env, ls[..i])
    ensures i < |ls| ==> Links(env, ls[i], i, EndOf(ls[..i]))
  {
    if i == |ls| {
      assert ls[..i] == ls;
    } else {
      var init := ls[..|ls| - 1];
      assert init[..i] == ls[..i];
      ChainedAt(env, init, i);
    }
  }

  lemma ChainedExtends(env: Env, ls: seq<Line>, l: Line)
    ensures Chained(env, ls + [l]) <==> Chained(env, ls) && Links(env, l, |ls|, EndOf(ls))
    ensures EndOf(ls + [l]) == l.digest
  {
    assert (ls + [l])[..|ls|] == ls;
  }

  /** A visible line that parses. */
  predicate IsRecord(env: Env, t: Text) {
    !Blank(t) && env.codec.parse(t).Some?
  }

  ghost predicate AllRecords(env: Env, lines: seq<Text>) {
    forall i :: 0 <= i < |lines| ==> Blank(lines[i]) || IsRecord(env, lines[i])
  }

  /** A verified file is exactly a chain: the walk succeeds if and only if every
      visible line is a record and the records are chained. */
  lemma {:induction false} IntactIffChained(env: Env, lines: seq<Text>)
    requires env.codec.SkipsBlanks()
    ensures Walk(env, lines).Good? <==> AllRecords(env, lines) && Chained(env, Parsed(env, lines))
    ensures Walk(env, lines).Good? ==>
              Walk(env, lines) == Good(|Parsed(env, lines)|, EndOf(Parsed(env, lines)))
  {
    if lines != [] {
      var init, t := lines[..|lines| - 1], lines[|lines| - 1];
      IntactIffChained(env, init);
      AllRecordsStep(env, lines);
      var l := env.codec.parse(t);
      if Blank(t) {
        assert Parsed(env, lines) == Parsed(env, init);
      } else if l.Some? {
        ChainedExtends(env, Parsed(env, init), l.value);
      }
    }
  }

  lemma AllRecordsStep(env: Env, lines: seq<Text>)
    requires lines != []
    ensures AllRecords(env, lines) <==>
              && AllRecords(env, lines[..|lines| - 1])
              && (Blank(lines[|lines| - 1]) || IsRecord(env, lines[|lines| - 1]))
  {
    var init := lines[..|lines| - 1];
    if AllRecords(env, init) && (Blank(lines[|lines| - 1]) || IsRecord(env, lines[|lines| - 1])) {
      forall i | 0 <= i < |lines| ensures Blank(lines[i]) || IsRecord(env, lines[i]) {
        assert i < |init| ==> lines[i] == init[i];
      }
    }
  }

  // ---- tamper evidence ----------------------------------------------------

  ghost predicate Collision(env: Env, x: Text, y: Text) {
    x != y && env.hash(x) == env.hash(y)
  }

  /** Records whose text fields the supervisor could have written. */
  ghost predicate Written(ls: seq<Line>) {
    forall i :: 0 <= i < |ls| ==> Unseparated(ls[i]) && SEPARATOR !in ls[i].payload
  }

  ghost predicate CleanLines(ls: seq<Line>) {
    forall i :: 0 <= i < |ls| ==> SEPARATOR !in ls[i].payload
  }

  /** Equal digests of a written line and a parsed line are equal lines, or a
      collision. */
  lemma SealsDiffer(env: Env, a: Line, b: Line)
    requires env.Seals()
    requires Unseparated(a) && SEPARATOR !in a.payload && SEPARATOR !in b.payload
    requires env.seal(a) == a.digest && env.seal(b) == b.digest && a.digest == b.digest
    ensures Collision(env, Preimage(a), Preimage(b)) || a == b
  {
    assert Exposed(a) && Exposed(b);
    if Preimage(a) == Preimage(b) {
      FramingInjective(a, b);
    }
  }

  /** One shared digest fixes everything before it: if a supervisor-written
      chain and any other chain end in the same digest, they are the same chain,
      or record i of the one and record j of the other are two different inputs
      with one hash. */
  lemma {:induction false} SharedDigestSharesPast(env: Env, a: seq<Line>, b: seq<Line>) returns (i: nat, j: nat)
    requires env.Seals() && Chained(env, a) && Chained(env, b)
    requires Written(a) && CleanLines(b)
    requires a != [] && b != [] && EndOf(a) == EndOf(b)
    ensures a == b || (i < |a| && j < |b| && Collision(env, Preimage(a[i]), Preimage(b[j])))
  {
    var la, lb := a[|a| - 1], b[|b| - 1];
    i, j := |a| - 1, |b| - 1;
    SealsDiffer(env, la, lb);
    if la == lb {
      LastShared(env, a, b);
      if |a| > 1 {
        i, j := SharedDigestSharesPast(env, a[..|a| - 1], b[..|b| - 1]);
      }
      if a[..|a| - 1] == b[..|b| - 1] {
        SameEnds(a, b);
      }
    }
  }

  /** Two chains that end in the same line are equally long, and what comes before
      that line ends in one digest too. */
  lemma LastShared(env: Env, a: seq<Line>, b: seq<Line>)
    requires Chained(env, a) && Chained(env, b) && a != [] && b != [] && a[|a| - 1] == b[|b| - 1]
    ensures |a| == |b| && EndOf(a[..|a| - 1]) == EndOf(b[..|b| - 1])
  {
    ChainedAt(env, a, |a| - 1);
    ChainedAt(env, b, |b| - 1);
  }

  lemma SameEnds<T>(a: seq<T>, b: seq<T>)
    requires a != [] && |a| == |b| && a[|a| - 1] == b[|b| - 1] && a[..|a| - 1] == b[..|b| - 1]
    ensures a == b
  {
    forall i | 0 <= i < |a| - 1 ensures a[i] == b[i] {
      assert a[..|a| - 1][i] == b[..|b| - 1][i];
    }
  }

  /** The same for two files that both verify: one equal digest, at any record,
      makes every record up to it equal. */
  lemma VerifiedFilesShareThePast(env: Env, f: Text, g: Text, i: nat, j: nat) returns (m: nat, n: nat)
    requires env.Seals() && env.codec.SkipsBlanks() && env.codec.CleanPayloads()
    requires Verify(env, f).Good? && Verify(env, g).Good?
    requires Written(Records(env, f))
    requires i < |Records(env, f)| && j < |Records(env, g)|
    requires Records(env, f)[i].digest == Records(env, g)[j].digest
    ensures || (i == j && Records(env, f)[..i + 1] == Records(env, g)[..i + 1])
            || (m <= i && n <= j && Collision(env, Preimage(Records(env, f)[m]), Preimage(Records(env, g)[n])))
  {
    IntactIffChained(env, Lines(f));
    IntactIffChained(env, Lines(g));
    ParsedClean(env, Lines(g));
    m, n := ChainsShareThePast(env, Records(env, f), Records(env, g), i, j);
  }

  lemma ChainsShareThePast(env: Env, a: seq<Line>, b: seq<Line>, i: nat, j: nat) returns (m: nat, n: nat)
    requires env.Seals() && Chained(env, a) && Chained(env, b)
    requires Written(a) && CleanLines(b)
    requires i < |a| && j < |b| && a[i].digest == b[j].digest
    ensures || (i == j && a[..i + 1] == b[..i + 1])
            || (m <= i && n <= j && Collision(env, Preimage(a[m]), Preimage(b[n])))
  {
    UpTo(env, a, i);
    UpTo(env, b, j);
    m, n := SharedDigestSharesPast(env, a[..i + 1], b[..j + 1]);
    if a[..i + 1] == b[..j + 1] {
      assert |a[..i + 1]| == |b[..j + 1]|;
    } else {
      assert a[..i + 1][m] == a[m] && b[..j + 1][n] == b[n];
    }
  }

  lemma UpTo(env: Env, ls: seq<Line>, i: nat)
    requires Chained(env, ls) && i < |ls|
    ensures Chained(env, ls[..i + 1]) && |ls[..i + 1]| == i + 1 && EndOf(ls[..i + 1]) == ls[i].digest
    ensures Written(ls) ==> Written(ls[..i + 1])
    ensures CleanLines(ls) ==> CleanLines(ls[..i + 1])
  {
    ChainedAt(env, ls, i + 1);
  }

  lemma {:induction false} ParsedClean(env: Env, lines: seq<Text>)
    requires env.codec.CleanPayloads()
    ensures CleanLines(Parsed(env, lines))
  {
    if lines != [] {
      ParsedClean(env, lines[..|lines| - 1]);
    }
  }

  // ---- walking on ---------------------------------------------------------

  lemma {:induction false} ParsedJoin(env: Env, a: seq<Text>, b: seq<Text>)
    ensures Parsed(env, a + b) == Parsed(env, a) + Parsed(env, b)
  {
    if b == [] {
      assert a + b == a;
    } else {
      var n := |b| - 1;
      assert (a + b)[..|a| + n] == a + b[..n];
      ParsedJoin(env, a, b[..n]);
    }
  }

  /** A prefix of an intact file's lines is intact, up to its own last record. */
  lemma IntactPrefix(env: Env, a: seq<Text>, b: seq<Text>)
    requires env.codec.SkipsBlanks() && Walk(env, a + b).Good?
    ensures Walk(env, a) == Good(|Parsed(env, a)|, EndOf(Parsed(env, a)))
    ensures AllRecords(env, b) && Chained(env, Parsed(env, a) + Parsed(env, b))
  {
    IntactIffChained(env, a + b);
    AllRecordsSplit(env, a, b);
    ParsedJoin(env, a, b);
    ChainedFront(env, Parsed(env, a), Parsed(env, b));
    IntactIffChained(env, a);
  }

  lemma AllRecordsSplit(env: Env, a: seq<Text>, b: seq<Text>)
    requires AllRecords(env, a + b)
    ensures AllRecords(env, a) && AllRecords(env, b)
  {
    assert forall i :: 0 <= i < |a| ==> (a + b)[i] == a[i];
    assert forall i :: 0 <= i < |b| ==> (a + b)[|a| + i] == b[i];
  }

  lemma ChainedFront(env: Env, a: seq<Line>, b: seq<Line>)
    requires Chained(env, a + b)
    ensures Chained(env, a)
  {
    ChainedAt(env, a + b, |a|);
    assert (a + b)[..|a|] == a;
  }

  /** The next record decides: if it does not link, the walk breaks there,
      whatever blank lines come first and whatever follows. */
  lemma {:induction false} NextRecordDecides(env: Env, a: seq<Text>, b: seq<Text>)
    requires env.codec.SkipsBlanks() && Walk(env, a).Good? && AllRecords(env, b) && Parsed(env, b) != []
    requires !Links(env, Parsed(env, b)[0], Walk(env, a).records, Walk(env, a).prev)
    ensures Walk(env, a + b) == Bad(Walk(env, a).records)
    decreases |b|
  {
    var t, rest := b[0], b[1..];
    assert b == [t] + rest && a + b == (a + [t]) + rest;
    OneLine(env, t);
    ParsedJoin(env, [t], rest);
    if Blank(t) {
      BlankLine(env, a, t);
      assert forall i :: 0 <= i < |rest| ==> rest[i] == b[i + 1];
      NextRecordDecides(env, a + [t], rest);
    } else {
      assert IsRecord(env, t);
      UnlinkedLine(env, a, t, rest);
    }
  }

  lemma BlankLine(env: Env, a: seq<Text>, t: Text)
    requires Blank(t)
    ensures Walk(env, a + [t]) == Walk(env, a)
  {
    assert (a + [t])[..|a|] == a;
  }

  /** A line that is no linking record breaks the walk there. */
  lemma UnlinkedLine(env: Env, a: seq<Text>, t: Text, rest: seq<Text>)
    requires Walk(env, a).Good? && !Blank(t)
    requires env.codec.parse(t).None? || !Links(env, env.codec.parse(t).value, Walk(env, a).records, Walk(env, a).prev)
    ensures Walk(env, a + [t] + rest) == Bad(Walk(env, a).records)
  {
    var all := a + [t] + rest;
    assert all[..|a|] == a && all[|a|] == t;
    WalkStep(env, all, |a|);
    BadStays(env, all, |a| + 1);
  }

  lemma OneLine(env: Env, t: Text)
    ensures Parsed(env, [t]) == ParsedLine(env, t)
  {
    assert [t][..0] == [];
  }
}
