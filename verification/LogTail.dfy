/** Bounded tailing of a JSONL log with a byte cursor: a backward block read that
    agrees with a forward parse, and a follow protocol that neither loses nor
    repeats a line. */
module LogTail {
  import opened Common

  const BLOCK: nat := 64 * 1024
  const BUDGET: nat := 4 * 1024 * 1024

  /** A parsed row: the numeric value of its level, and the rest of it. */
  datatype Row = Row(level: int, body: seq<Byte>)

  /** A returned record carries the offset just past its newline. */
  datatype Entry = Entry(row: Row, cursor: nat)

  /** What becomes of one line's text: a row, or nothing when it does not parse
      or the level filter drops it. */
  type Reader = seq<Byte> -> Option<Row>

  /** Lines 262-266: parse, then drop rows below a non-zero threshold. */
  function Filtered(parse: Reader, threshold: int): Reader {
    line => var row := parse(line);
            if row.Some? && threshold != 0 && row.value.level < threshold then None else row
  }

  /** Records in file order. */
  datatype Batch = Batch(entries: seq<Entry>)
  {
    function Then(next: Batch): Batch { Batch(entries + next.entries) }
  }

  const NOTHING: Batch := Batch([])

  lemma ThenAssociates(a: Batch, b: Batch, c: Batch)
    ensures a.Then(b.Then(c)) == a.Then(b).Then(c)
    ensures a.Then(NOTHING) == a && NOTHING.Then(a) == a
  {
    assert a.entries + (b.entries + c.entries) == a.entries + b.entries + c.entries;
    assert a.entries + [] == a.entries && [] + a.entries == a.entries;
  }

  function Found(row: Option<Row>, end: nat): Batch {
    if row.Some? then Batch([Entry(row.value, end)]) else NOTHING
  }

  // ---- the forward parse --------------------------------------------------

  /** The first newline at or after `i`, or the end. */
  function Next(data: seq<Byte>, i: nat): (n: nat)
    requires i <= |data|
    ensures i <= n <= |data|
    ensures n < |data| ==> data[n] == NEWLINE
    decreases |data| - i
  {
    if i == |data| || data[i] == NEWLINE then i else Next(data, i + 1)
  }

  lemma {:induction false} NextSkips(data: seq<Byte>, i: nat, m: nat)
    requires i <= |data| && i <= m < Next(data, i)
    ensures data[m] != NEWLINE
    decreases |data| - i
  {
    if i < m {
      NextSkips(data, i + 1, m);
    }
  }

  /** The lines that start at `i` or later and end before `j`. */
  function Rows(r: Reader, data: seq<Byte>, i: nat, j: nat): Batch
    requires i <= j <= |data|
    decreases j - i
  {
    var nl := Next(data, i);
    if nl >= j then NOTHING
    else Found(r(data[i..nl]), nl + 1).Then(Rows(r, data, nl + 1, j))
  }

  /** A complete line of [i, j): from a line start up to the newline at n. */
  ghost predicate LineAt(data: seq<Byte>, i: nat, j: nat, s: nat, n: nat)
    requires j <= |data|
  {
    && i <= s <= n < j && data[n] == NEWLINE && (s == i || data[s - 1] == NEWLINE)
    && forall m :: s <= m < n ==> data[m] != NEWLINE
  }

  /** An entry reads one complete line, and its cursor is just past the newline. */
  ghost predicate ReadsLine(r: Reader, data: seq<Byte>, i: nat, j: nat, s: nat, e: Entry)
    requires j <= |data|
  {
    e.cursor > 0 && LineAt(data, i, j, s, e.cursor - 1) && r(data[s..e.cursor - 1]) == Some(e.row)
  }

  /** The complete lines of [i, j) are the first one and those after it. */
  lemma LinesSplit(data: seq<Byte>, i: nat, j: nat, s: nat, n: nat)
    requires i <= j <= |data|
    ensures LineAt(data, i, j, s, n) <==>
              var nl := Next(data, i);
              nl < j && ((s == i && n == nl) || LineAt(data, nl + 1, j, s, n))
  {
    var nl := Next(data, i);
    forall m | i <= m < nl ensures data[m] != NEWLINE {
      NextSkips(data, i, m);
    }
    if LineAt(data, i, j, s, n) && s <= nl {
      assert s == i;
    }
  }

  lemma {:induction false} RowReadsLine(r: Reader, data: seq<Byte>, i: nat, j: nat, e: Entry) returns (s: nat)
    requires i <= j <= |data| && e in Rows(r, data, i, j).entries
    ensures ReadsLine(r, data, i, j, s, e)
    decreases j - i
  {
    var nl := Next(data, i);
    if e in Found(r(data[i..nl]), nl + 1).entries {
      s := i;
    } else {
      s := RowReadsLine(r, data, nl + 1, j, e);
    }
    LinesSplit(data, i, j, s, e.cursor - 1);
  }

  lemma {:induction false} LineIsRow(r: Reader, data: seq<Byte>, i: nat, j: nat, s: nat, e: Entry)
    requires i <= j <= |data| && ReadsLine(r, data, i, j, s, e)
    ensures e in Rows(r, data, i, j).entries
    decreases j - i
  {
    var nl := Next(data, i);
    LinesSplit(data, i, j, s, e.cursor - 1);
    if s != i || e.cursor - 1 != nl {
      LineIsRow(r, data, nl + 1, j, s, e);
    }
  }

  /** The rows are exactly the complete lines the reader takes, each with the offset
      just past its newline. */
  lemma RowsExactly(r: Reader, data: seq<Byte>, i: nat, j: nat, e: Entry)
    requires i <= j <= |data|
    ensures e in Rows(r, data, i, j).entries <==> exists s :: ReadsLine(r, data, i, j, s, e)
  {
    if e in Rows(r, data, i, j).entries {
      var s := RowReadsLine(r, data, i, j, e);
    }
    if s :| ReadsLine(r, data, i, j, s, e) {
      LineIsRow(r, data, i, j, s, e);
    }
  }

  ghost predicate InOrder(es: seq<Entry>, i: nat, j: nat) {
    && (forall a, b :: 0 <= a < b < |es| ==> es[a].cursor < es[b].cursor)
    && (forall a :: 0 <= a < |es| ==> i < es[a].cursor <= j)
  }

  /** They come in file order. */
  lemma {:induction false} RowsInOrder(r: Reader, data: seq<Byte>, i: nat, j: nat)
    requires i <= j <= |data|
    ensures InOrder(Rows(r, data, i, j).entries, i, j)
    decreases j - i
  {
    var nl := Next(data, i);
    if nl < j {
      RowsInOrder(r, data, nl + 1, j);
      var first, rest := Found(r(data[i..nl]), nl + 1).entries, Rows(r, data, nl + 1, j).entries;
      assert Rows(r, data, i, j).entries == first + rest;
      assert forall a :: 0 <= a < |rest| ==> nl + 1 < rest[a].cursor <= j;
    }
  }

  /** The records at or above a level; a zero threshold keeps all. */
  function AtLeast(es: seq<Entry>, threshold: int): seq<Entry> {
    if es == [] then []
    else (if threshold == 0 || es[0].row.level >= threshold then [es[0]] else []) + AtLeast(es[1..], threshold)
  }

  lemma {:induction false} AtLeastJoin(a: seq<Entry>, b: seq<Entry>, threshold: int)
    ensures AtLeast(a + b, threshold) == AtLeast(a, threshold) + AtLeast(b, threshold)
  {
    if a == [] {
      assert a + b == b;
    } else {
      assert (a + b)[1..] == a[1..] + b && (a + b)[0] == a[0];
      AtLeastJoin(a[1..], b, threshold);
      Regroup(AtLeast([a[0]], threshold), AtLeast(a[1..], threshold), AtLeast(b, threshold));
    }
  }

  lemma FoundFiltered(parse: Reader, threshold: int, line: seq<Byte>, end: nat)
    ensures Found(Filtered(parse, threshold)(line), end).entries == AtLeast(Found(parse(line), end).entries, threshold)
  {
  }

  lemma RowsUnfold(r: Reader, data: seq<Byte>, i: nat, j: nat)
    requires i <= j <= |data| && Next(data, i) < j
    ensures var nl := Next(data, i);
            Rows(r, data, i, j).entries == Found(r(data[i..nl]), nl + 1).entries + Rows(r, data, nl + 1, j).entries
  {
  }

  /** The level filter keeps exactly the rows at or above the threshold, in order. */
  lemma {:induction false} RowsFiltered(parse: Reader, threshold: int, data: seq<Byte>, i: nat, j: nat)
    requires i <= j <= |data|
    ensures Rows(Filtered(parse, threshold), data, i, j).entries == AtLeast(Rows(parse, data, i, j).entries, threshold)
    decreases j - i
  {
    var nl := Next(data, i);
    if nl < j {
      RowsFiltered(parse, threshold, data, nl + 1, j);
      RowsUnfold(parse, data, i, j);
      RowsUnfold(Filtered(parse, threshold), data, i, j);
      FoundFiltered(parse, threshold, data[i..nl], nl + 1);
      AtLeastJoin(Found(parse(data[i..nl]), nl + 1).entries, Rows(parse, data, nl + 1, j).entries, threshold);
    }
  }

  /** Every complete line of a file. */
  function Parsed(r: Reader, file: seq<Byte>): Batch { Rows(r, file, 0, |file|) }

  /** The start of a line. */
  predicate Boundary(data: seq<Byte>, i: nat) {
    i <= |data| && (i == 0 || data[i - 1] == NEWLINE)
  }

  /** Splitting at a line start splits the rows. */
  lemma {:induction false} RowsJoin(r: Reader, data: seq<Byte>, i: nat, k: nat, j: nat)
    requires i <= k <= j <= |data| && (k == i || Boundary(data, k))
    ensures Rows(r, data, i, j) == Rows(r, data, i, k).Then(Rows(r, data, k, j))
    decreases j - i
  {
    if i == k {
      ThenAssociates(Rows(r, data, k, j), NOTHING, NOTHING);
    } else {
      var nl := Next(data, i);
      if nl >= k {
        NextSkips(data, i, k - 1);
      } else {
        RowsJoin(r, data, nl + 1, k, j);
        ThenAssociates(Found(r(data[i..nl]), nl + 1), Rows(r, data, nl + 1, k), Rows(r, data, k, j));
      }
    }
  }

  lemma {:induction false} NextShift(file: seq<Byte>, s: nat, i: nat)
    requires s + i <= |file|
    ensures s + Next(file[s..], i) == Next(file, s + i)
    decreases |file| - i
  {
    if s + i < |file| && file[s + i] != NEWLINE {
      NextShift(file, s, i + 1);
    }
  }

  lemma {:induction false} RowsGrow(r: Reader, file: seq<Byte>, more: seq<Byte>, i: nat, j: nat)
    requires i <= j <= |file| && file <= more
    ensures Rows(r, more, i, j) == Rows(r, file, i, j)
    decreases j - i
  {
    NextGrow(file, more, i, j);
    var nl := Next(file, i);
    if nl < j {
      assert file[i..nl] == more[i..nl];
      RowsGrow(r, file, more, nl + 1, j);
    }
  }

  lemma {:induction false} NextGrow(file: seq<Byte>, more: seq<Byte>, i: nat, j: nat)
    requires i <= j <= |file| && file <= more
    ensures Next(file, i) < j ==> Next(more, i) == Next(file, i)
    ensures Next(file, i) >= j ==> Next(more, i) >= j
    decreases j - i
  {
    if i < j {
      assert file[i] == more[i];
      if file[i] != NEWLINE {
        NextGrow(file, more, i + 1, j);
      }
    }
  }

  /** `_records_from_bytes`, lines 232-268: the rows of `data`, which is what
      `file` holds from offset `base` on. */
  method RecordsFromBytes(r: Reader, data: seq<Byte>, base: nat, skipLeadingPartial: bool, ghost file: seq<Byte>)
    returns (out: Batch)
    requires base <= |file| && data == file[base..]
    ensures out == if !skipLeadingPartial then Rows(r, file, base, |file|)
                   else if Next(file, base) == |file| then NOTHING
                   else Rows(r, file, Next(file, base) + 1, |file|)
  {
    out := NOTHING;
    var start := 0;
    NextShift(file, base, 0);
    if skipLeadingPartial {
      var nl := Next(data, 0);
      if nl == |data| {
        return;
      }
      start := nl + 1;
    }
    out := Collect(r, data, base, start, file);
  }

  /** The loop of lines 255-268. */
  method Collect(r: Reader, data: seq<Byte>, base: nat, first: nat, ghost file: seq<Byte>) returns (out: Batch)
    requires base <= |file| && data == file[base..] && first <= |data|
    ensures out == Rows(r, file, base + first, |file|)
  {
    out := NOTHING;
    var start := first;
    ghost var all := Rows(r, file, base + first, |file|);
    ThenAssociates(all, NOTHING, NOTHING);
    while Next(data, start) < |data|
      invariant start <= |data|
      invariant all == out.Then(Rows(r, file, base + start, |file|))
      decreases |data| - start
    {
      var nl := Next(data, start);
      CollectStep(r, data, base, start, file, out);
      out := out.Then(Found(r(data[start..nl]), base + nl + 1));
      start := nl + 1;
    }
    CollectDone(r, data, base, start, file, out);
  }

  lemma CollectDone(r: Reader, data: seq<Byte>, base: nat, start: nat, file: seq<Byte>, out: Batch)
    requires base <= |file| && data == file[base..] && start <= |data| && Next(data, start) == |data|
    ensures out.Then(Rows(r, file, base + start, |file|)) == out
  {
    NextShift(file, base, start);
    ThenAssociates(out, NOTHING, NOTHING);
  }

  lemma CollectStep(r: Reader, data: seq<Byte>, base: nat, start: nat, file: seq<Byte>, out: Batch)
    requires base <= |file| && data == file[base..] && start <= |data| && Next(data, start) < |data|
    ensures var nl := Next(data, start);
            out.Then(Rows(r, file, base + start, |file|)) ==
            out.Then(Found(r(data[start..nl]), base + nl + 1)).Then(Rows(r, file, base + (nl + 1), |file|))
  {
    var nl := Next(data, start);
    NextShift(file, base, start);
    assert data[start..nl] == file[base + start..base + nl];
    ThenAssociates(out, Found(r(data[start..nl]), base + nl + 1), Rows(r, file, base + (nl + 1), |file|));
  }

  // ---- newlines -----------------------------------------------------------

  /** How many newlines lie in [i, j). */
  function Count(data: seq<Byte>, i: nat, j: nat): nat
    requires i <= j <= |data|
  {
    if i == j then 0 else Count(data, i, j - 1) + if data[j - 1] == NEWLINE then 1 else 0
  }

  lemma {:induction false} CountJoin(data: seq<Byte>, i: nat, k: nat, j: nat)
    requires i <= k <= j <= |data|
    ensures Count(data, i, j) == Count(data, i, k) + Count(data, k, j)
  {
    if k < j {
      CountJoin(data, i, k, j - 1);
    }
  }

  lemma {:induction false} CountSlice(file: seq<Byte>, s: nat, e: nat, n: nat)
    requires s + n <= e <= |file|
    ensures Count(file[s..e], 0, n) == Count(file, s, s + n)
  {
    if n > 0 {
      CountSlice(file, s, e, n - 1);
    }
  }

  /** Up to the first newline there is none, and then there is one. */
  lemma {:induction false} CountNext(data: seq<Byte>, i: nat, j: nat)
    requires i <= j <= |data|
    ensures Next(data, i) >= j ==> Count(data, i, j) == 0
    ensures Next(data, i) < j ==> Count(data, i, j) == 1 + Count(data, Next(data, i) + 1, j)
    decreases j - i
  {
    if i < j {
      CountJoin(data, i, i + 1, j);
      assert Count(data, i, i) == 0;
      if data[i] != NEWLINE {
        CountNext(data, i + 1, j);
      }
    }
  }

  /** The line start after the last newline before `n`. */
  function LastBoundary(data: seq<Byte>, n: nat): (b: nat)
    requires n <= |data|
    ensures b <= n && Boundary(data, b)
  {
    if n == 0 || data[n - 1] == NEWLINE then n else LastBoundary(data, n - 1)
  }

  lemma {:induction false} LastBoundaryIs(data: seq<Byte>, n: nat, m: nat)
    requires n <= |data|
    ensures LastBoundary(data, n) <= m < n ==> data[m] != NEWLINE
    ensures m <= n && Boundary(data, m) ==> m <= LastBoundary(data, n)
  {
    if n != 0 && data[n - 1] != NEWLINE {
      LastBoundaryIs(data, n - 1, m);
    }
  }

  lemma {:induction false} LastBoundaryShift(file: seq<Byte>, s: nat, n: nat)
    requires s + n <= |file|
    requires Boundary(file, s) || LastBoundary(file[s..], n) > 0
    ensures LastBoundary(file, s + n) == s + LastBoundary(file[s..], n)
  {
    if n != 0 && file[s + n - 1] != NEWLINE {
      LastBoundaryShift(file, s, n - 1);
    }
  }

  /** Nothing complete lies after the last boundary. */
  lemma RowsEnd(r: Reader, data: seq<Byte>, i: nat)
    requires i <= |data| && LastBoundary(data, |data|) <= i
    ensures Rows(r, data, i, |data|) == NOTHING
  {
    var nl := Next(data, i);
    if nl < |data| {
      LastBoundaryIs(data, |data|, nl);
    }
  }

  // ---- the initial tail ---------------------------------------------------

  /** Lines 310-311 and 337-338: at most `limit` records, by Python's slice. */
  function Newest(b: Batch, limit: int): Batch {
    var n := |b.entries|;
    if n <= limit then b
    else if limit > 0 then Batch(b.entries[n - limit..])
    else Batch(b.entries[if -limit <= n then -limit else n..])
  }

  /** The bound holds for every input exactly when the limit is positive: with
      limit 0 the slice `[-0:]` keeps everything. */
  lemma NewestBoundedIff(limit: int)
    ensures (forall b: Batch :: |Newest(b, limit).entries| <= limit) <==> limit >= 1
  {
    var row := Entry(Row(0, []), 0);
    assert |Newest(Batch([row]), limit).entries| >= 0;
    if limit == 0 {
      assert Newest(Batch([row]), 0) == Batch([row]);
    }
  }

  /** What the slice keeps: the last `limit` records, or for a limit that is not
      positive all but the first -limit. */
  lemma NewestKeeps(b: Batch, limit: int)
    ensures var n, kept := |b.entries|, Newest(b, limit).entries;
            var dropped := if limit > 0 then n - limit else -limit;
            kept == if dropped <= 0 then b.entries else if dropped >= n then [] else b.entries[dropped..]
  {
  }

  function Joined(blocks: seq<seq<Byte>>): seq<Byte> {
    if blocks == [] then [] else blocks[|blocks| - 1] + Joined(blocks[..|blocks| - 1])
  }

  /** Where the rows of a backward read that reached `pos` begin. */
  function FirstLine(file: seq<Byte>, pos: nat): (s: nat)
    requires pos <= |file|
    ensures s <= |file|
  {
    if pos == 0 then 0 else if Next(file, pos) == |file| then |file| else Next(file, pos) + 1
  }

  /** How far back a read may have gone: to the start, past enough newlines, or
      through the whole budget. */
  predicate StopsAt(file: seq<Byte>, limit: int, pos: nat) {
    && pos <= |file|
    && |file| - pos <= BUDGET
    && (pos == 0 || Count(file, pos, |file|) > limit || |file| - pos == BUDGET)
  }

  /** Lines 315-340: read blocks backward from the end. */
  method InitialTail(r: Reader, file: seq<Byte>, limit: int)
    returns (records: Batch, cursor: Option<nat>, ghost pos: nat)
    ensures StopsAt(file, limit, pos)
    ensures records == Newest(Rows(r, file, FirstLine(file, pos), |file|), limit)
    ensures file == [] ==> cursor == None
    ensures file != [] ==>
              cursor == if Count(file, pos, |file|) > 0 || pos == 0 then Some(LastBoundary(file, |file|)) else None
  {
    if |file| == 0 {
      return NOTHING, None, 0;
    }
    var at, data := ReadBack(file, limit);
    records := RecordsFromBytes(r, data, at, at > 0, file);
    records := Newest(records, limit);
    cursor := TailCursor(data, at, file);
    pos := at;
  }

  /** Lines 339-340: the cursor of the bytes read from `at` on. */
  method TailCursor(data: seq<Byte>, at: nat, ghost file: seq<Byte>) returns (cursor: Option<nat>)
    requires at <= |file| && data == file[at..]
    ensures cursor == if Count(file, at, |file|) > 0 || at == 0 then Some(LastBoundary(file, |file|)) else None
  {
    var newline := LastBoundary(data, |data|);
    CursorIs(file, at);
    cursor := if newline > 0 then Some(at + newline) else if at == 0 then Some(0) else None;
  }

  /** The loop of lines 317-333. */
  method ReadBack(file: seq<Byte>, limit: int) returns (pos: nat, data: seq<Byte>)
    ensures StopsAt(file, limit, pos) && data == file[pos..]
  {
    var blocks: seq<seq<Byte>> := [];
    pos := |file|;
    var scanned, newlines := 0, 0;
    ghost var rounds: nat := 0;
    while pos > 0 && scanned < BUDGET
      invariant pos <= |file| && scanned == |file| - pos
      invariant scanned <= BUDGET && (pos == 0 || scanned == BLOCK * rounds)
      invariant Joined(blocks) == file[pos..]
      invariant newlines == Count(file, pos, |file|)
      decreases pos
    {
      var readSize := Least(BLOCK, pos);
      pos := pos - readSize;
      var chunk := file[pos..pos + readSize];
      BlockStep(blocks, file, pos, readSize);
      blocks := blocks + [chunk];
      scanned := scanned + readSize;
      newlines := newlines + Count(chunk, 0, |chunk|);
      rounds := rounds + 1;
      if newlines > limit {
        break;
      }
    }
    data := Joined(blocks);
  }

  lemma BlockStep(blocks: seq<seq<Byte>>, file: seq<Byte>, pos: nat, n: nat)
    requires pos + n <= |file| && Joined(blocks) == file[pos + n..]
    ensures Joined(blocks + [file[pos..pos + n]]) == file[pos..]
    ensures Count(file, pos + n, |file|) + Count(file[pos..pos + n], 0, n) == Count(file, pos, |file|)
  {
    var chunk := file[pos..pos + n];
    assert (blocks + [chunk])[..|blocks|] == blocks;
    assert chunk + file[pos + n..] == file[pos..];
    CountSlice(file, pos, pos + n, n);
    CountJoin(file, pos, pos + n, |file|);
  }

  lemma CursorIs(file: seq<Byte>, pos: nat)
    requires pos <= |file|
    ensures var b := LastBoundary(file[pos..], |file| - pos);
            && (b > 0 <==> Count(file, pos, |file|) > 0)
            && (b > 0 || pos == 0 ==> pos + b == LastBoundary(file, |file|))
  {
    var b := LastBoundary(file[pos..], |file| - pos);
    HasNewline(file[pos..], |file| - pos);
    assert file[pos..] == file[pos..|file|];
    CountSlice(file, pos, |file|, |file| - pos);
    if b > 0 || pos == 0 {
      LastBoundaryShift(file, pos, |file| - pos);
    }
  }

  lemma {:induction false} HasNewline(data: seq<Byte>, n: nat)
    requires n <= |data|
    ensures LastBoundary(data, n) > 0 <==> Count(data, 0, n) > 0
  {
    if n > 0 {
      HasNewline(data, n - 1);
    }
  }
}
