/** The line measurements of a commit, and the history that takes them through a
    content-addressed cache. */
module LineBudget {
  import opened Common

  /** How paths are classified and contents counted. The logic counter sees a
      path only through its suffix. */
  datatype Rules = Rules(
    excluded: string -> bool,
    production: string -> bool,
    subsystem: string -> string,
    language: string -> string,
    suffix: string -> string,
    newlines: seq<Byte> -> nat,
    logic: (string, seq<Byte>) -> nat)

  datatype File = File(blob: string, path: string)

  /** The object store: what a blob holds and what a commit tracks. */
  datatype Git = Git(content: string -> seq<Byte>, tree: string -> seq<File>)

  /** A counted file: its newline count and its executable-line count. */
  datatype Entry = Entry(path: string, count: nat, logic: nat)

  /** The three measurements. */
  datatype Lines = Lines(total: nat, production: nat, logic: nat)
  {
    function Plus(other: Lines): Lines {
      Lines(total + other.total, production + other.production, logic + other.logic)
    }
  }

  const ZERO := Lines(0, 0, 0)

  datatype Report = Report(
    files: nat, productionFiles: nat, totals: Lines, languages: map<string, nat>, subsystems: map<string, Lines>)

  // ---- what a report says -------------------------------------------------

  /** One entry's share of the measurements. */
  function Share(r: Rules, e: Entry): Lines {
    if r.production(e.path) then Lines(e.count, e.count, e.logic) else Lines(e.count, 0, 0)
  }

  function Totals(r: Rules, es: seq<Entry>): Lines {
    if es == [] then ZERO else Totals(r, es[..|es| - 1]).Plus(Share(r, es[|es| - 1]))
  }

  /** The measurements of one subsystem. */
  function Tally(r: Rules, es: seq<Entry>, name: string): Lines {
    if es == [] then ZERO
    else
      var before := Tally(r, es[..|es| - 1], name);
      if r.subsystem(es[|es| - 1].path) == name then before.Plus(Share(r, es[|es| - 1])) else before
  }

  function Subsystems(r: Rules, es: seq<Entry>): set<string> {
    if es == [] then {} else Subsystems(r, es[..|es| - 1]) + {r.subsystem(es[|es| - 1].path)}
  }

  function Tallies(r: Rules, es: seq<Entry>): map<string, Lines> {
    map name | name in Subsystems(r, es) :: Tally(r, es, name)
  }

  function LanguageLines(r: Rules, es: seq<Entry>, language: string): nat {
    if es == [] then 0
    else
      LanguageLines(r, es[..|es| - 1], language)
      + if r.language(es[|es| - 1].path) == language then es[|es| - 1].count else 0
  }

  function Produced(r: Rules, es: seq<Entry>): nat {
    if es == [] then 0 else Produced(r, es[..|es| - 1]) + if r.production(es[|es| - 1].path) then 1 else 0
  }

  lemma {:induction false} TallyOutside(r: Rules, es: seq<Entry>, name: string)
    requires name !in Subsystems(r, es)
    ensures Tally(r, es, name) == ZERO
  {
    if es != [] {
      TallyOutside(r, es[..|es| - 1], name);
    }
  }

  /** One pass of `_summarize`'s loop over the subsystem dictionary. */
  lemma TalliesStep(r: Rules, es: seq<Entry>, e: Entry)
    ensures var name := r.subsystem(e.path);
            var old_ := if name in Tallies(r, es) then Tallies(r, es)[name] else ZERO;
            Tallies(r, es + [e]) == Tallies(r, es)[name := old_.Plus(Share(r, e))]
  {
    var more := es + [e];
    assert more[..|more| - 1] == es;
    if r.subsystem(e.path) !in Subsystems(r, es) {
      TallyOutside(r, es, r.subsystem(e.path));
    }
  }

  /** The numbers a report holds besides the subsystems. */
  ghost predicate Counts(r: Rules, es: seq<Entry>, rep: Report) {
    && rep.files == |es| && rep.productionFiles == Produced(r, es) && rep.totals == Totals(r, es)
    && forall l :: (if l in rep.languages then rep.languages[l] else 0) == LanguageLines(r, es, l)
  }

  function Count(r: Rules, rep: Report, e: Entry): Report {
    var l := r.language(e.path);
    rep.(files := rep.files + 1,
         productionFiles := rep.productionFiles + if r.production(e.path) then 1 else 0,
         totals := rep.totals.Plus(Share(r, e)),
         languages := rep.languages[l := (if l in rep.languages then rep.languages[l] else 0) + e.count])
  }

  lemma CountsStep(r: Rules, es: seq<Entry>, e: Entry, rep: Report)
    requires Counts(r, es, rep)
    ensures Counts(r, es + [e], Count(r, rep, e))
  {
    var more := es + [e];
    assert more[..|more| - 1] == es;
  }

  /** `_summarize`. */
  method Summarize(r: Rules, es: seq<Entry>) returns (rep: Report)
    ensures Counts(r, es, rep) && rep.subsystems == Tallies(r, es)
  {
    rep := Report(0, 0, ZERO, map[], map[]);
    for i := 0 to |es|
      invariant Counts(r, es[..i], rep) && rep.subsystems == Tallies(r, es[..i])
    {
      var e := es[i];
      assert es[..i + 1] == es[..i] + [e];
      CountsStep(r, es[..i], e, rep);
      TalliesStep(r, es[..i], e);
      var name := r.subsystem(e.path);
      var tally := if name in rep.subsystems then rep.subsystems[name] else ZERO;
      rep := Count(r, rep, e).(subsystems := rep.subsystems[name := tally.Plus(Share(r, e))]);
    }
    assert es[..|es|] == es;
  }

  // ---- what the measurements are ------------------------------------------

  /** The entries' weights, added up. */
  function Sum(es: seq<Entry>, weight: Entry -> nat): nat {
    if es == [] then 0 else Sum(es[..|es| - 1], weight) + weight(es[|es| - 1])
  }

  /** The three totals: the newlines of all files, those of production files, and
      the executable lines of production files. */
  lemma {:induction false} TotalsAre(r: Rules, es: seq<Entry>)
    ensures Totals(r, es) == Lines(Sum(es, (e: Entry) => e.count),
                                   Sum(es, (e: Entry) => if r.production(e.path) then e.count else 0),
                                   Sum(es, (e: Entry) => if r.production(e.path) then e.logic else 0))
  {
    if es != [] {
      TotalsAre(r, es[..|es| - 1]);
    }
  }

  /** The same of one subsystem. */
  lemma {:induction false} TallyIs(r: Rules, es: seq<Entry>, name: string)
    ensures var mine := (e: Entry) => r.subsystem(e.path) == name;
            Tally(r, es, name) ==
            Lines(Sum(es, (e: Entry) => if mine(e) then e.count else 0),
                  Sum(es, (e: Entry) => if mine(e) && r.production(e.path) then e.count else 0),
                  Sum(es, (e: Entry) => if mine(e) && r.production(e.path) then e.logic else 0))
  {
    if es != [] {
      TallyIs(r, es[..|es| - 1], name);
    }
  }

  lemma {:induction false} LanguageLinesAre(r: Rules, es: seq<Entry>, language: string)
    ensures var inIt := (e: Entry) => r.language(e.path) == language;
            LanguageLines(r, es, language) == Sum(es, (e: Entry) => if inIt(e) then e.count else 0)
    ensures Produced(r, es) == Sum(es, (e: Entry) => if r.production(e.path) then 1 else 0)
  {
    if es != [] {
      LanguageLinesAre(r, es[..|es| - 1], language);
    }
  }

  /** A subsystem is reported exactly if it has a file. */
  lemma {:induction false} SubsystemReported(r: Rules, es: seq<Entry>, name: string)
    ensures name in Tallies(r, es) <==> exists i :: 0 <= i < |es| && r.subsystem(es[i].path) == name
  {
    if es != [] {
      var n := |es| - 1;
      SubsystemReported(r, es[..n], name);
      forall i | 0 <= i < n ensures es[..n][i] == es[i] {}
    }
  }

  // ---- the columns sum to the totals --------------------------------------

  function ColumnSum(table: map<string, Lines>, names: seq<string>): Lines {
    if names == [] then ZERO
    else
      var last := names[|names| - 1];
      ColumnSum(table, names[..|names| - 1]).Plus(if last in table then table[last] else ZERO)
  }

  ghost predicate ListsKeys<V>(names: seq<string>, table: map<string, V>) {
    Distinct(names) && forall n :: n in names <==> n in table
  }

  function SumTallies(r: Rules, es: seq<Entry>, names: seq<string>): Lines {
    if names == [] then ZERO
    else SumTallies(r, es, names[..|names| - 1]).Plus(Tally(r, es, names[|names| - 1]))
  }

  /** A further entry adds its share to one column. */
  lemma {:induction false} ShareLandsOnce(r: Rules, es: seq<Entry>, e: Entry, names: seq<string>)
    requires Distinct(names)
    ensures SumTallies(r, es + [e], names) ==
              if r.subsystem(e.path) in names then SumTallies(r, es, names).Plus(Share(r, e))
              else SumTallies(r, es, names)
  {
    if names != [] {
      var n := |names| - 1;
      ShareLandsOnce(r, es, e, names[..n]);
      TallyOneMore(r, es, e, names[n]);
      LastOfDistinct(names, r.subsystem(e.path));
    }
  }

  lemma TallyOneMore(r: Rules, es: seq<Entry>, e: Entry, name: string)
    ensures Tally(r, es + [e], name) ==
              if r.subsystem(e.path) == name then Tally(r, es, name).Plus(Share(r, e)) else Tally(r, es, name)
  {
    assert (es + [e])[..|es|] == es;
  }

  lemma LastOfDistinct(names: seq<string>, x: string)
    requires names != [] && Distinct(names)
    ensures x in names <==> x in names[..|names| - 1] || x == names[|names| - 1]
    ensures x == names[|names| - 1] ==> x !in names[..|names| - 1]
  {
    assert names == names[..|names| - 1] + [names[|names| - 1]];
  }

  lemma {:induction false} TalliesSum(r: Rules, es: seq<Entry>, names: seq<string>)
    requires Distinct(names) && forall n <- Subsystems(r, es) :: n in names
    ensures SumTallies(r, es, names) == Totals(r, es)
  {
    if es == [] {
      NothingToSum(r, es, names);
    } else {
      var init, e := es[..|es| - 1], es[|es| - 1];
      assert Subsystems(r, es) == Subsystems(r, init) + {r.subsystem(e.path)};
      assert init + [e] == es;
      TalliesSum(r, init, names);
      ShareLandsOnce(r, init, e, names);
    }
  }

  lemma {:induction false} NothingToSum(r: Rules, es: seq<Entry>, names: seq<string>)
    requires es == []
    ensures SumTallies(r, es, names) == ZERO
  {
    if names != [] {
      var n := |names| - 1;
      NothingToSum(r, es, names[..n]);
      assert Tally(r, es, names[n]) == ZERO;
    }
  }

  lemma {:induction false} ColumnIsTallies(r: Rules, es: seq<Entry>, names: seq<string>)
    requires forall n <- names :: n in Subsystems(r, es)
    ensures ColumnSum(Tallies(r, es), names) == SumTallies(r, es, names)
  {
    if names != [] {
      ColumnIsTallies(r, es, names[..|names| - 1]);
      assert names[|names| - 1] in names;
    }
  }

  /** A history point's columns sum to the commit's enforced measurements. */
  lemma PointSums(r: Rules, git: Git, sha: string, names: seq<string>)
    requires ListsKeys(names, Measured(r, git, sha))
    ensures ColumnSum(Measured(r, git, sha), names) == Totals(r, Entries(r, git, git.tree(sha)))
  {
    var es := Entries(r, git, git.tree(sha));
    ColumnIsTallies(r, es, names);
    TalliesSum(r, es, names);
  }

  /** In every report the subsystem columns sum to the repository's totals, in
      whatever order they are listed. */
  lemma ColumnsSumToTotals(r: Rules, es: seq<Entry>, rep: Report, names: seq<string>)
    requires Counts(r, es, rep) && rep.subsystems == Tallies(r, es) && ListsKeys(names, rep.subsystems)
    ensures ColumnSum(rep.subsystems, names) == rep.totals
  {
    ColumnIsTallies(r, es, names);
    TalliesSum(r, es, names);
  }

  // ---- direct and cached entries ------------------------------------------

  /** `_entries` at a commit: logic is counted for production files only. */
  function Entries(r: Rules, git: Git, files: seq<File>): seq<Entry> {
    if files == [] then []
    else
      var f := files[|files| - 1];
      var before := Entries(r, git, files[..|files| - 1]);
      if r.excluded(f.path) then before
      else
        var data := git.content(f.blob);
        before + [Entry(f.path, r.newlines(data), if r.production(f.path) then r.logic(r.suffix(f.path), data) else 0)]
  }

  /** What is counted of a file. */
  ghost predicate CountOf(r: Rules, git: Git, f: File, e: Entry) {
    && !r.excluded(f.path) && e.path == f.path && e.count == r.newlines(git.content(f.blob))
    && e.logic == if r.production(f.path) then r.logic(r.suffix(f.path), git.content(f.blob)) else 0
  }

  /** Every file that is not excluded is counted once, in order, and no other. */
  lemma {:induction false} EntriesAre(r: Rules, git: Git, files: seq<File>) returns (from: seq<nat>)
    ensures |from| == |Entries(r, git, files)|
    ensures forall k :: 0 <= k < |from| ==>
              from[k] < |files| && CountOf(r, git, files[from[k]], Entries(r, git, files)[k])
    ensures forall k, l :: 0 <= k < l < |from| ==> from[k] < from[l]
    ensures forall i :: 0 <= i < |files| && !r.excluded(files[i].path) ==> i in from
  {
    from := [];
    if files != [] {
      var n := |files| - 1;
      from := EntriesAre(r, git, files[..n]);
      if !r.excluded(files[n].path) {
        from := from + [n];
      }
    }
  }

  /** What `measure` reports per subsystem for a commit. */
  function Measured(r: Rules, git: Git, sha: string): map<string, Lines> {
    Tallies(r, Entries(r, git, git.tree(sha)))
  }

  datatype BlobCount = BlobCount(count: nat, logic: nat)

  datatype Cache = Cache(blobs: map<string, BlobCount>, commits: map<string, map<string, Lines>>)

  /** The cache key of a blob under a suffix. */
  function Key(blob: string, suffix: string): string { blob + " " + suffix }

  /** Blob ids hold no space, so a key names one blob and one suffix. */
  lemma KeyInjective(b: string, s: string, c: string, t: string)
    requires ' ' !in b && ' ' !in c && Key(b, s) == Key(c, t)
    ensures b == c && s == t
  {
    var k := Key(b, s);
    assert k[|b|] == ' ' && k[|c|] == ' ';
    assert k[..|b|] == b && k[..|c|] == c;
    assert k[|b| + 1..] == s && k[|c| + 1..] == t;
  }

  function Truth(r: Rules, git: Git, blob: string, suffix: string): BlobCount {
    BlobCount(r.newlines(git.content(blob)), r.logic(suffix, git.content(blob)))
  }

  ghost predicate BlobsTrue(r: Rules, git: Git, blobs: map<string, BlobCount>) {
    forall blob, suffix {:trigger Key(blob, suffix)} ::
      ' ' !in blob && Key(blob, suffix) in blobs ==> blobs[Key(blob, suffix)] == Truth(r, git, blob, suffix)
  }

  ghost predicate CommitsTrue(r: Rules, git: Git, commits: map<string, map<string, Lines>>) {
    forall sha <- commits :: commits[sha] == Measured(r, git, sha)
  }

  ghost predicate Valid(r: Rules, git: Git, cache: Cache) {
    BlobsTrue(r, git, cache.blobs) && CommitsTrue(r, git, cache.commits)
  }

  ghost predicate ProperIds(git: Git) {
    forall sha, i :: 0 <= i < |git.tree(sha)| ==> ' ' !in git.tree(sha)[i].blob
  }

  lemma BlobAdded(r: Rules, git: Git, blobs: map<string, BlobCount>, blob: string, suffix: string)
    requires BlobsTrue(r, git, blobs) && ' ' !in blob
    ensures BlobsTrue(r, git, blobs[Key(blob, suffix) := Truth(r, git, blob, suffix)])
  {
    var more := blobs[Key(blob, suffix) := Truth(r, git, blob, suffix)];
    forall b, s {:trigger Key(b, s)} | ' ' !in b && Key(b, s) in more ensures more[Key(b, s)] == Truth(r, git, b, s) {
      if Key(b, s) == Key(blob, suffix) {
        KeyInjective(b, s, blob, suffix);
      }
    }
  }

  /** Two listings that differ at most in the logic of non-production files. */
  ghost predicate Alike(r: Rules, a: seq<Entry>, b: seq<Entry>) {
    && |a| == |b|
    && forall i :: 0 <= i < |a| ==>
         a[i].path == b[i].path && a[i].count == b[i].count && (r.production(a[i].path) ==> a[i].logic == b[i].logic)
  }

  lemma {:induction false} AlikeTallies(r: Rules, a: seq<Entry>, b: seq<Entry>, name: string)
    requires Alike(r, a, b)
    ensures Tally(r, a, name) == Tally(r, b, name) && Subsystems(r, a) == Subsystems(r, b)
    ensures Totals(r, a) == Totals(r, b)
  {
    if a != [] {
      AlikeTallies(r, a[..|a| - 1], b[..|b| - 1], name);
    }
  }

  lemma AlikeMeasures(r: Rules, a: seq<Entry>, b: seq<Entry>)
    requires Alike(r, a, b)
    ensures Tallies(r, a) == Tallies(r, b)
  {
    AlikeTallies(r, a, b, "");
    forall name ensures Tally(r, a, name) == Tally(r, b, name) {
      AlikeTallies(r, a, b, name);
    }
  }

  /** `_cached_entries`: a blob is read only when its key is new. */
  method CachedEntries(r: Rules, git: Git, files: seq<File>, cached: map<string, BlobCount>)
    returns (es: seq<Entry>, blobs: map<string, BlobCount>)
    requires BlobsTrue(r, git, cached) && forall i :: 0 <= i < |files| ==> ' ' !in files[i].blob
    ensures BlobsTrue(r, git, blobs) && cached.Keys <= blobs.Keys
    ensures Alike(r, es, Entries(r, git, files))
  {
    es, blobs := [], cached;
    for i := 0 to |files|
      invariant BlobsTrue(r, git, blobs) && cached.Keys <= blobs.Keys
      invariant Alike(r, es, Entries(r, git, files[..i]))
    {
      var f := files[i];
      assert files[..i + 1][..i] == files[..i];
      if !r.excluded(f.path) {
        var key := Key(f.blob, r.suffix(f.path));
        if key !in blobs {
          var data := git.content(f.blob);
          BlobAdded(r, git, blobs, f.blob, r.suffix(f.path));
          blobs := blobs[key := BlobCount(r.newlines(data), r.logic(r.suffix(f.path), data))];
        }
        es := es + [Entry(f.path, blobs[key].count, blobs[key].logic)];
      }
    }
    assert files[..|files|] == files;
  }

  // ---- history ------------------------------------------------------------

  /** `_chain`: the commits from `since` to the head, oldest first. `log` is the
      first-parent log, newest first. */
  method Chain(log: seq<string>, since: string) returns (chain: Option<seq<string>>)
    ensures chain.None? <==> since !in log
    ensures chain.Some? ==> IsChain(log, since, chain.value)
  {
    var i := 0;
    while i < |log| && log[i] != since
      invariant 0 <= i <= |log| && since !in log[..i]
    {
      i := i + 1;
    }
    if i == |log| {
      assert log[..i] == log;
      chain := None;
    } else {
      chain := Some(seq(i + 1, k requires 0 <= k <= i => log[i - k]));
    }
  }

  /** Starts at `since`, ends at the head, and reads the log backwards. */
  ghost predicate IsChain(log: seq<string>, since: string, chain: seq<string>) {
    && 0 < |chain| <= |log| && chain[0] == since
    && (forall k :: 0 <= k < |chain| ==> chain[k] == log[|chain| - 1 - k])
    && since !in log[..|chain| - 1]
  }

  datatype Point = Point(sha: string, subsystems: map<string, Lines>)

  /** A cache file: the digest of the tool that wrote it and what it holds. */
  datatype Stored = Stored(tool: string, cache: Cache)

  /** `history`: each commit gets what measuring it directly gives, whatever
      valid cache it starts from; a cache of another tool is not trusted. The
      cache written back is valid again. */
  method History(r: Rules, git: Git, log: seq<string>, since: string, digest: string, stored: Option<Stored>)
    returns (points: Option<seq<Point>>, written: Stored)
    requires ProperIds(git)
    requires stored.Some? && stored.value.tool == digest ==> Valid(r, git, stored.value.cache)
    ensures written.tool == digest && Valid(r, git, written.cache)
    ensures points.None? <==> since !in log
    ensures points.Some? ==>
              && IsChain(log, since, seq(|points.value|, i requires 0 <= i < |points.value| => points.value[i].sha))
              && forall i :: 0 <= i < |points.value| ==>
                   points.value[i].subsystems == Measured(r, git, points.value[i].sha)
  {
    var cache := if stored.Some? && stored.value.tool == digest then stored.value.cache else Cache(map[], map[]);
    var chain := Chain(log, since);
    points := None;
    if chain.Some? {
      var series;
      series, cache := Walk(r, git, chain.value, cache);
      points := Some(series);
      assert seq(|series|, i requires 0 <= i < |series| => series[i].sha) == chain.value;
    }
    written := Stored(digest, cache);
  }

  method Walk(r: Rules, git: Git, chain: seq<string>, from: Cache) returns (points: seq<Point>, cache: Cache)
    requires ProperIds(git) && Valid(r, git, from)
    ensures Valid(r, git, cache)
    ensures |points| == |chain|
    ensures forall i :: 0 <= i < |chain| ==> points[i] == Point(chain[i], Measured(r, git, chain[i]))
  {
    points, cache := [], from;
    for k := 0 to |chain|
      invariant Valid(r, git, cache) && |points| == k
      invariant forall i :: 0 <= i < k ==> points[i] == Point(chain[i], Measured(r, git, chain[i]))
    {
      var sha := chain[k];
      if sha !in cache.commits {
        var es, blobs := CachedEntries(r, git, git.tree(sha), cache.blobs);
        var rep := Summarize(r, es);
        AlikeMeasures(r, es, Entries(r, git, git.tree(sha)));
        cache := Cache(blobs, cache.commits[sha := rep.subsystems]);
      }
      points := points + [Point(sha, cache.commits[sha])];
    }
  }
}
