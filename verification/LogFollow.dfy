/** What the bounded tail and the follow cursor deliver. */
module LogFollow {
  import opened Common
  import opened LogTail

  /** `b` is the end of `a`. */
  ghost predicate IsSuffix(b: Batch, a: Batch) {
    exists older: Batch :: a == older.Then(b)
  }

  lemma NewestIsSuffix(b: Batch, limit: int)
    ensures IsSuffix(Newest(b, limit), b)
  {
    var k := |b.entries| - |Newest(b, limit).entries|;
    var older := Batch(b.entries[..k]);
    assert b.entries == b.entries[..k] + b.entries[k..];
    assert b == older.Then(Newest(b, limit));
  }

  lemma SuffixTrans(a: Batch, b: Batch, c: Batch)
    requires IsSuffix(a, b) && IsSuffix(b, c)
    ensures IsSuffix(a, c)
  {
    var x: Batch :| b == x.Then(a);
    var y: Batch :| c == y.Then(b);
    ThenAssociates(y, x, a);
    assert c == y.Then(x).Then(a);
  }

  /** The rows a backward read keeps are the end of the whole file's rows. */
  lemma ReadIsSuffix(r: Reader, file: seq<Byte>, pos: nat)
    requires pos <= |file|
    ensures IsSuffix(Rows(r, file, FirstLine(file, pos), |file|), Parsed(r, file))
  {
    var s := FirstLine(file, pos);
    if pos > 0 && Next(file, pos) == |file| {
      ThenAssociates(Parsed(r, file), NOTHING, NOTHING);
      assert Parsed(r, file) == Parsed(r, file).Then(NOTHING);
    } else {
      RowsJoin(r, file, 0, s, |file|);
      assert Parsed(r, file) == Rows(r, file, 0, s).Then(Rows(r, file, s, |file|));
    }
  }

  /** The initial tail is a suffix of the full parse, cursors included, of at
      most `limit` records, read from at most the byte budget. */
  lemma InitialTailIsSuffix(r: Reader, file: seq<Byte>, limit: int, pos: nat)
    requires StopsAt(file, limit, pos)
    ensures IsSuffix(Newest(Rows(r, file, FirstLine(file, pos), |file|), limit), Parsed(r, file))
    ensures limit >= 1 ==> |Newest(Rows(r, file, FirstLine(file, pos), |file|), limit).entries| <= limit
  {
    var rows := Rows(r, file, FirstLine(file, pos), |file|);
    ReadIsSuffix(r, file, pos);
    NewestIsSuffix(rows, limit);
    SuffixTrans(Newest(rows, limit), rows, Parsed(r, file));
  }

  /** Every complete line reads as a row. */
  ghost predicate AllRead(r: Reader, file: seq<Byte>) {
    forall i: nat, n: nat :: Boundary(file, i) && n < |file| && n == Next(file, i) ==> r(file[i..n]).Some?
  }

  lemma {:induction false} RowsCount(r: Reader, file: seq<Byte>, i: nat, j: nat)
    requires AllRead(r, file) && Boundary(file, i) && i <= j <= |file|
    ensures |Rows(r, file, i, j).entries| == Count(file, i, j)
    decreases j - i
  {
    CountNext(file, i, j);
    var nl := Next(file, i);
    if nl < j {
      assert r(file[i..nl]).Some?;
      RowsCount(r, file, nl + 1, j);
    }
  }

  /** The budget reaches back far enough for `limit` complete lines. */
  ghost predicate InReach(file: seq<Byte>, limit: int) {
    |file| <= BUDGET || Count(file, |file| - BUDGET, |file|) > limit
  }

  lemma NewestOfEnd(a: Batch, b: Batch, limit: int)
    requires limit >= 1 && |b.entries| >= limit
    ensures Newest(a.Then(b), limit) == Newest(b, limit)
  {
    var all, n := a.entries + b.entries, |a.entries| + |b.entries|;
    assert all[n - limit..] == b.entries[|b.entries| - limit..];
    if |b.entries| == limit {
      assert b.entries[0..] == b.entries;
    }
  }

  /** With every complete line readable, the initial tail is exactly the last
      `limit` records if and only if the budget reaches back far enough, or the
      file has no complete line at all. */
  lemma InitialTailExactIff(r: Reader, file: seq<Byte>, limit: int, pos: nat)
    requires StopsAt(file, limit, pos) && limit >= 1 && AllRead(r, file)
    ensures Newest(Rows(r, file, FirstLine(file, pos), |file|), limit) == Newest(Parsed(r, file), limit) <==>
              InReach(file, limit) || Count(file, 0, |file|) == 0
  {
    RowsCount(r, file, 0, |file|);
    CountJoin(file, 0, pos, |file|);
    if pos > 0 {
      CountNext(file, pos, |file|);
      if Count(file, pos, |file|) > limit {
        EnoughSeen(r, file, limit, pos);
      } else {
        FewSeen(r, file, limit, pos);
      }
    }
  }

  lemma EnoughSeen(r: Reader, file: seq<Byte>, limit: int, pos: nat)
    requires StopsAt(file, limit, pos) && limit >= 1 && AllRead(r, file) && pos > 0
    requires Count(file, pos, |file|) > limit
    ensures Newest(Rows(r, file, FirstLine(file, pos), |file|), limit) == Newest(Parsed(r, file), limit)
    ensures InReach(file, limit)
  {
    var s := FirstLine(file, pos);
    CountNext(file, pos, |file|);
    RowsCount(r, file, s, |file|);
    RowsJoin(r, file, 0, s, |file|);
    NewestOfEnd(Rows(r, file, 0, s), Rows(r, file, s, |file|), limit);
    ReachedBy(file, limit, pos);
  }

  lemma FewSeen(r: Reader, file: seq<Byte>, limit: int, pos: nat)
    requires StopsAt(file, limit, pos) && limit >= 1 && AllRead(r, file) && pos > 0
    requires Count(file, pos, |file|) <= limit
    ensures !InReach(file, limit)
    ensures Newest(Rows(r, file, FirstLine(file, pos), |file|), limit) == Newest(Parsed(r, file), limit) <==>
              Count(file, 0, |file|) == 0
  {
    var s := FirstLine(file, pos);
    CountNext(file, pos, |file|);
    CountJoin(file, 0, pos, |file|);
    RowsCount(r, file, 0, |file|);
    if Next(file, pos) < |file| {
      RowsCount(r, file, s, |file|);
    }
    NewestLength(Rows(r, file, s, |file|), limit);
    NewestLength(Parsed(r, file), limit);
  }

  lemma ReachedBy(file: seq<Byte>, limit: int, pos: nat)
    requires pos <= |file| && |file| - pos <= BUDGET && Count(file, pos, |file|) > limit
    ensures InReach(file, limit)
  {
    if |file| > BUDGET {
      CountJoin(file, |file| - BUDGET, pos, |file|);
    }
  }

  // ---- following ----------------------------------------------------------

  /** One follow request's answer. */
  datatype Answer = Answer(records: Batch, cursor: nat)

  function Clamp(after: int, size: nat): nat {
    if after < 0 then 0 else if after > size then size else after
  }

  /** Just past the last newline between `start` and `end`, else `start`. */
  function CursorFrom(file: seq<Byte>, start: nat, end: nat): nat
    requires start <= end <= |file|
  {
    if end == start || file[end - 1] == NEWLINE then end else CursorFrom(file, start, end - 1)
  }

  /** It is the nearest offset of the file. */
  lemma ClampNearest(after: int, size: nat, k: nat)
    requires k <= size
    ensures Clamp(after, size) <= size
    ensures Apart(after, Clamp(after, size)) <= Apart(after, k)
  {
  }

  function Apart(a: int, b: int): nat { if a <= b then b - a else a - b }

  lemma {:induction false} CursorFromIs(file: seq<Byte>, start: nat, end: nat)
    requires start <= end <= |file|
    ensures var c := CursorFrom(file, start, end);
            && start <= c <= end && (c == start || file[c - 1] == NEWLINE)
            && forall m :: c <= m < end ==> file[m] != NEWLINE
  {
    if end != start && file[end - 1] != NEWLINE {
      CursorFromIs(file, start, end - 1);
    }
  }

  /** From a line start, it is the file's last line start. */
  lemma {:induction false} CursorFromBoundary(file: seq<Byte>, start: nat, end: nat)
    requires Boundary(file, start) && start <= end <= |file|
    ensures CursorFrom(file, start, end) == LastBoundary(file, end)
  {
    if end != start && file[end - 1] != NEWLINE {
      CursorFromBoundary(file, start, end - 1);
    }
  }

  /** The cursor computed on the bytes read from `start`. */
  lemma {:induction false} CursorFromRest(file: seq<Byte>, start: nat, end: nat, rest: seq<Byte>, n: nat)
    requires start <= end <= |file| && n == end - start && n <= |rest|
    requires forall i :: 0 <= i < n ==> rest[i] == file[start + i]
    ensures start + LastBoundary(rest, n) == CursorFrom(file, start, end)
    decreases n
  {
    if n > 0 {
      assert rest[n - 1] == file[end - 1];
      if rest[n - 1] != NEWLINE {
        CursorFromRest(file, start, end - 1, rest, n - 1);
      }
    }
  }

  /** Lines 300-312. */
  function Forward(r: Reader, file: seq<Byte>, limit: int, after: int): Answer {
    var start := Clamp(after, |file|);
    if start >= |file| then Answer(NOTHING, |file|)
    else Answer(Newest(Rows(r, file, start, |file|), limit),
                CursorFrom(file, start, |file|))
  }

  /** `tail_records`; `None` for a file that cannot be opened. */
  method TailRecords(file: Option<seq<Byte>>, parse: Reader, threshold: int, limit: int, after: Option<int>)
    returns (records: Batch, cursor: Option<nat>, ghost pos: nat)
    ensures file.None? ==> records == NOTHING && cursor == None
    ensures forall e <- records.entries :: threshold == 0 || e.row.level >= threshold
    ensures file.Some? && after.Some? ==>
              && cursor.Some?
              && Answer(records, cursor.value) == Forward(Filtered(parse, threshold), file.value, limit, after.value)
              && records == Newest(Batch(AtLeast(Rows(parse, file.value, Clamp(after.value, |file.value|),
                                                      |file.value|).entries, threshold)), limit)
    ensures file.Some? && after.None? ==>
              && StopsAt(file.value, limit, pos)
              && records == Newest(Rows(Filtered(parse, threshold), file.value, FirstLine(file.value, pos),
                                        |file.value|), limit)
              && records == Newest(Batch(AtLeast(Rows(parse, file.value, FirstLine(file.value, pos),
                                                      |file.value|).entries, threshold)), limit)
              && cursor == if file.value != [] && (Count(file.value, pos, |file.value|) > 0 || pos == 0)
                           then Some(LastBoundary(file.value, |file.value|)) else None
  {
    pos := 0;
    if file.None? {
      return NOTHING, None, 0;
    }
    var bytes := file.value;
    if after.Some? {
      var start := Clamp(after.value, |bytes|);
      NewestAtLeast(parse, threshold, bytes, start, limit);
      if start >= |bytes| {
        return NOTHING, Some(|bytes|), 0;
      }
      var data := bytes[start..];
      records := RecordsFromBytes(Filtered(parse, threshold), data, start, false, bytes);
      records := Newest(records, limit);
      cursor := Some(start + LastBoundary(data, |data|));
      CursorFromRest(bytes, start, |bytes|, data, |data|);
    } else {
      records, cursor, pos := InitialTail(Filtered(parse, threshold), bytes, limit);
      NewestAtLeast(parse, threshold, bytes, FirstLine(bytes, pos), limit);
    }
  }

  /** The level filter, in terms of the parser. */
  lemma NewestAtLeast(parse: Reader, threshold: int, file: seq<Byte>, start: nat, limit: int)
    requires start <= |file|
    ensures var records := Newest(Rows(Filtered(parse, threshold), file, start, |file|), limit);
            && records == Newest(Batch(AtLeast(Rows(parse, file, start, |file|).entries, threshold)), limit)
            && (forall e <- records.entries :: threshold == 0 || e.row.level >= threshold)
            && (start == |file| ==> records == NOTHING)
  {
    var rows := Rows(parse, file, start, |file|).entries;
    RowsFiltered(parse, threshold, file, start, |file|);
    AtLeastOnly(rows, threshold);
  }

  lemma {:induction false} AtLeastOnly(es: seq<Entry>, threshold: int)
    ensures forall e :: e in AtLeast(es, threshold) <==> e in es && (threshold == 0 || e.row.level >= threshold)
  {
    if es != [] {
      AtLeastOnly(es[1..], threshold);
      assert es == [es[0]] + es[1..];
    }
  }

  /** What a follower has been given, and where it will ask next. */
  datatype Follower = Follower(delivered: Batch, cursor: nat)

  /** A follower that starts at `c` and asks once per state of the file. */
  function Follow(r: Reader, files: seq<seq<Byte>>, limit: int, c: nat): Follower {
    if files == [] then Follower(NOTHING, c)
    else
      var before := Follow(r, files[..|files| - 1], limit, c);
      var answer := Forward(r, files[|files| - 1], limit, before.cursor);
      Follower(before.delivered.Then(answer.records), answer.cursor)
  }

  /** Each state of the file extends the one before. */
  ghost predicate Grows(files: seq<seq<Byte>>) {
    |files| <= 1 || (Grows(files[..|files| - 1]) && files[|files| - 2] <= files[|files| - 1])
  }

  /** No request found more than `limit` new records. */
  ghost predicate Fits(r: Reader, files: seq<seq<Byte>>, limit: int, c: nat) {
    files == [] ||
    (var init, last := files[..|files| - 1], files[|files| - 1];
     var at := Follow(r, init, limit, c).cursor;
     Fits(r, init, limit, c) && (at <= |last| ==> |Rows(r, last, at, |last|).entries| <= limit))
  }

  /** One request from a line start: the cursor moves to the last line start, and
      the answer is every complete row between. */
  lemma ForwardAtBoundary(r: Reader, file: seq<Byte>, limit: int, c: nat)
    requires Boundary(file, c) && |Rows(r, file, c, |file|).entries| <= limit
    ensures Forward(r, file, limit, c).cursor == LastBoundary(file, |file|) >= c
    ensures Forward(r, file, limit, c).records == Rows(r, file, c, |file|)
  {
    LastBoundaryIs(file, |file|, c);
    if c < |file| {
      CursorFromBoundary(file, c, |file|);
    }
  }

  /** Over any append-only growth, from any line start: the cursor is the last
      line start of the file it was answered for, and the answers joined together
      are exactly the complete rows after the start, each once. */
  lemma {:induction false} FollowDeliversEachOnce(r: Reader, files: seq<seq<Byte>>, limit: int, c: nat)
    requires files != [] && Grows(files) && Boundary(files[0], c) && Fits(r, files, limit, c)
    ensures var last := files[|files| - 1];
            && Follow(r, files, limit, c).cursor == LastBoundary(last, |last|) >= c
            && Follow(r, files, limit, c).delivered == Rows(r, last, c, |last|)
            && Boundary(last, c)
  {
    var n := |files| - 1;
    var init, last := files[..n], files[n];
    if n == 0 {
      assert init == [];
      ForwardAtBoundary(r, last, limit, c);
      ThenAssociates(Rows(r, last, c, |last|), NOTHING, NOTHING);
    } else {
      FollowDeliversEachOnce(r, init, limit, c);
      FollowStep(r, init[n - 1], last, limit, c);
    }
  }

  /** One more request after the follower caught up with `file`. */
  lemma FollowStep(r: Reader, file: seq<Byte>, more: seq<Byte>, limit: int, c: nat)
    requires file <= more && Boundary(file, c) && c <= LastBoundary(file, |file|)
    requires |Rows(r, more, LastBoundary(file, |file|), |more|).entries| <= limit
    ensures Boundary(more, c)
    ensures var answer := Forward(r, more, limit, LastBoundary(file, |file|));
            && answer.cursor == LastBoundary(more, |more|) >= c
            && Rows(r, file, c, |file|).Then(answer.records) == Rows(r, more, c, |more|)
  {
    var b := LastBoundary(file, |file|);
    BoundaryGrows(file, more, b);
    ForwardAtBoundary(r, more, limit, b);
    CaughtUp(r, file, more, c);
  }

  lemma BoundaryGrows(file: seq<Byte>, more: seq<Byte>, b: nat)
    requires file <= more && Boundary(file, b)
    ensures Boundary(more, b)
  {
  }

  /** What was delivered for the shorter file and what follows it in the longer. */
  lemma CaughtUp(r: Reader, file: seq<Byte>, more: seq<Byte>, c: nat)
    requires file <= more && Boundary(file, c) && c <= LastBoundary(file, |file|)
    ensures var b := LastBoundary(file, |file|);
            Rows(r, file, c, |file|).Then(Rows(r, more, b, |more|)) == Rows(r, more, c, |more|)
  {
    var b := LastBoundary(file, |file|);
    RowsJoin(r, file, c, b, |file|);
    RowsEnd(r, file, b);
    ThenAssociates(Rows(r, file, c, b), NOTHING, NOTHING);
    RowsGrow(r, file, more, c, b);
    RowsJoin(r, more, c, b, |more|);
  }

  lemma ForwardAdvances(r: Reader, file: seq<Byte>, limit: int, c: nat)
    requires Boundary(file, c)
    ensures Forward(r, file, limit, c).cursor == LastBoundary(file, |file|) >= c
  {
    LastBoundaryIs(file, |file|, c);
    if c < |file| {
      CursorFromBoundary(file, c, |file|);
    }
  }

  /** Whatever the limit, every cursor is just past the last newline of the file
      it was answered for. */
  lemma {:induction false} FollowCursor(r: Reader, files: seq<seq<Byte>>, limit: int, c: nat)
    requires files != [] && Grows(files) && Boundary(files[0], c)
    ensures var last := files[|files| - 1];
            Follow(r, files, limit, c).cursor == LastBoundary(last, |last|) >= c
  {
    var n := |files| - 1;
    var init, last := files[..n], files[n];
    if n == 0 {
      assert init == [];
      ForwardAdvances(r, last, limit, c);
    } else {
      FollowCursor(r, init, limit, c);
      var file := init[n - 1];
      BoundaryGrows(file, last, LastBoundary(file, |file|));
      ForwardAdvances(r, last, limit, LastBoundary(file, |file|));
    }
  }

  /** The cursor never decreases from one request to the next. */
  lemma CursorsAscend(r: Reader, files: seq<seq<Byte>>, limit: int, c: nat)
    requires files != [] && Grows(files) && Boundary(files[0], c)
    ensures Follow(r, files[..|files| - 1], limit, c).cursor <= Follow(r, files, limit, c).cursor
  {
    FollowCursor(r, files, limit, c);
    if |files| > 1 {
      var init := files[..|files| - 1];
      FollowCursor(r, init, limit, c);
      var file, more := files[|files| - 2], files[|files| - 1];
      assert init[|init| - 1] == file;
      BoundaryGrows(file, more, LastBoundary(file, |file|));
      LastBoundaryIs(more, |more|, LastBoundary(file, |file|));
    }
  }

  lemma {:induction false} GrowsFromFirst(files: seq<seq<Byte>>)
    requires files != [] && Grows(files)
    ensures files[0] <= files[|files| - 1]
  {
    if |files| > 1 {
      var init := files[..|files| - 1];
      GrowsFromFirst(init);
      assert init[|init| - 1] == files[|files| - 2];
    }
  }

  /** Starting from the initial tail's own cursor, tail and answers together are
      a suffix of the final file's rows: no gap and no repeat at the seam. */
  lemma TailThenFollow(r: Reader, files: seq<seq<Byte>>, limit: int, pos: nat)
    requires files != [] && Grows(files) && StopsAt(files[0], limit, pos)
    requires Fits(r, files, limit, LastBoundary(files[0], |files[0]|))
    ensures var first, last := files[0], files[|files| - 1];
            var c := LastBoundary(first, |first|);
            var tail := Newest(Rows(r, first, FirstLine(first, pos), |first|), limit);
            IsSuffix(tail.Then(Follow(r, files, limit, c).delivered), Parsed(r, last))
  {
    var first, last := files[0], files[|files| - 1];
    var c := LastBoundary(first, |first|);
    var tail := Newest(Rows(r, first, FirstLine(first, pos), |first|), limit);
    FollowDeliversEachOnce(r, files, limit, c);
    InitialTailIsSuffix(r, first, limit, pos);
    GrowsFromFirst(files);
    Seam(r, first, last, tail);
  }

  lemma Seam(r: Reader, file: seq<Byte>, more: seq<Byte>, tail: Batch)
    requires file <= more && IsSuffix(tail, Parsed(r, file))
    ensures IsSuffix(tail.Then(Rows(r, more, LastBoundary(file, |file|), |more|)), Parsed(r, more))
  {
    var after := Rows(r, more, LastBoundary(file, |file|), |more|);
    CaughtUp(r, file, more, 0);
    var older: Batch :| Parsed(r, file) == older.Then(tail);
    ThenAssociates(older, tail, after);
    assert Parsed(r, more) == older.Then(tail.Then(after));
  }

  /** The cursor advances whatever the limit; with a positive limit the answers
      fall short exactly when some request found more than it. */
  lemma {:induction false} FollowLength(r: Reader, files: seq<seq<Byte>>, limit: int, c: nat)
    requires files != [] && Grows(files) && Boundary(files[0], c) && limit >= 1
    ensures var f, last := Follow(r, files, limit, c), files[|files| - 1];
            && f.cursor == LastBoundary(last, |last|) >= c
            && Boundary(last, c)
            && |f.delivered.entries| <= |Rows(r, last, c, |last|).entries|
            && (|f.delivered.entries| == |Rows(r, last, c, |last|).entries| <==> Fits(r, files, limit, c))
  {
    var n := |files| - 1;
    var init, last := files[..n], files[n];
    if n == 0 {
      assert init == [];
      ForwardCursor(r, last, limit, c);
    } else {
      FollowLength(r, init, limit, c);
      FollowLengthStep(r, init[n - 1], last, limit, c);
      var before := Follow(r, init, limit, c);
      var answer, news := Forward(r, last, limit, before.cursor), |Rows(r, last, before.cursor, |last|).entries|;
      assert Follow(r, files, limit, c) == Follower(before.delivered.Then(answer.records), answer.cursor);
      assert Fits(r, files, limit, c) <==> Fits(r, init, limit, c) && news <= limit;
    }
  }

  /** One more request after the cursor caught up with `file`. */
  lemma FollowLengthStep(r: Reader, file: seq<Byte>, more: seq<Byte>, limit: int, c: nat)
    requires file <= more && Boundary(file, c) && c <= LastBoundary(file, |file|) && limit >= 1
    ensures Boundary(more, c) && Boundary(more, LastBoundary(file, |file|))
    ensures var b := LastBoundary(file, |file|);
            var answer, fresh_ := Forward(r, more, limit, b), |Rows(r, more, b, |more|).entries|;
            && answer.cursor == LastBoundary(more, |more|) >= c
            && |answer.records.entries| == Least(fresh_, limit)
            && |Rows(r, more, c, |more|).entries| == |Rows(r, file, c, |file|).entries| + fresh_
  {
    var b := LastBoundary(file, |file|);
    BoundaryGrows(file, more, b);
    ForwardCursor(r, more, limit, b);
    CaughtUp(r, file, more, c);
  }

  lemma ForwardInside(r: Reader, file: seq<Byte>, limit: int, c: nat)
    requires Boundary(file, c) && c < |file|
    ensures Forward(r, file, limit, c).cursor == LastBoundary(file, |file|)
    ensures Forward(r, file, limit, c).records == Newest(Rows(r, file, c, |file|), limit)
  {
    CursorFromBoundary(file, c, |file|);
  }

  lemma NothingNew(r: Reader, file: seq<Byte>, limit: int)
    requires limit >= 1
    ensures Newest(Rows(r, file, |file|, |file|), limit) == NOTHING
  {
    assert Rows(r, file, |file|, |file|) == NOTHING;
  }

  lemma ForwardCursor(r: Reader, file: seq<Byte>, limit: int, c: nat)
    requires Boundary(file, c) && limit >= 1
    ensures Forward(r, file, limit, c).cursor == LastBoundary(file, |file|) >= c
    ensures |Forward(r, file, limit, c).records.entries| == Least(|Rows(r, file, c, |file|).entries|, limit)
  {
    LastBoundaryIs(file, |file|, c);
    NewestLength(Rows(r, file, c, |file|), limit);
    if c < |file| {
      ForwardInside(r, file, limit, c);
    } else {
      NothingNew(r, file, limit);
    }
  }

  lemma NewestLength(b: Batch, limit: int)
    requires limit >= 1
    ensures |Newest(b, limit).entries| == Least(|b.entries|, limit)
  {
  }

  /** With a positive limit, following is complete if and only if no request
      found more than `limit` new records. */
  lemma FollowCompleteIff(r: Reader, files: seq<seq<Byte>>, limit: int, c: nat)
    requires files != [] && Grows(files) && Boundary(files[0], c) && limit >= 1
    ensures var last := files[|files| - 1];
            && Boundary(last, c)
            && (Follow(r, files, limit, c).delivered == Rows(r, last, c, |last|) <==> Fits(r, files, limit, c))
  {
    FollowLength(r, files, limit, c);
    if Fits(r, files, limit, c) {
      FollowDeliversEachOnce(r, files, limit, c);
    }
  }
}
