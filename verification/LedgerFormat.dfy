/** The ledger's record format: lines, the digest preimage and the JSON codec. */
module LedgerFormat {
  import opened Common

  /** UTF-8 text or raw file bytes. */
  type Text = seq<Byte>

  const U64_LIMIT: nat := 0x1_0000_0000_0000_0000

  type U64 = n: nat | n < U64_LIMIT

  const SEPARATOR: Byte := 0x1f

  /** The all-zero digest the first record links back to. */
  const GENESIS: Text := Repeat(0x30, 64)

  /** One ledger line, its payload kept as the exact bytes that are hashed. */
  datatype Line = Line(number: U64, prev: Text, ts: Text, kind: Text, payload: Text, digest: Text)

  datatype Kind =
    | SupervisorStart | WatchdogAction | DecisionObserved | ContractChange | DiffContainmentAlert
    | PromotionContradiction | DivergenceFinding | HistoryChanged | LedgerIntegrity
  {
    function Name(): string {
      match this
      case SupervisorStart => "supervisor_start"
      case WatchdogAction => "watchdog_action"
      case DecisionObserved => "decision_observed"
      case ContractChange => "contract_change"
      case DiffContainmentAlert => "diff_containment_alert"
      case PromotionContradiction => "promotion_contradiction"
      case DivergenceFinding => "divergence_finding"
      case HistoryChanged => "history_changed"
      case LedgerIntegrity => "ledger_integrity"
    }
  }

  datatype Leaf = Null | Bool(b: bool) | Number(n: U64) | Str(s: string)

  /** The key under which serde_json passes raw text: an object that starts with it
      does not read back as that object. */
  const RESERVED: string := "$serde_json::private::RawValue"

  type Key = s: string | s != RESERVED witness ""

  type Row = map<Key, Leaf>

  datatype Value = One(leaf: Leaf) | Many(rows: seq<Row>)

  /** The payloads the supervisor writes: objects of plain values and of lists of
      rows. Objects are unordered, as the sorted maps of serde_json are, and
      numbers are unsigned 64-bit. A value of any other shape reads as null. */
  datatype Json = Json(fields: map<Key, Value>)
  {
    function Get(key: Key): Option<Value> {
      if key in fields then Some(fields[key]) else None
    }
  }

  /** A line read back by kind and payload, as replay reads it. */
  datatype Record = Record(kind: Kind, payload: Json)

  /** The bytes of printable ASCII text, which the kinds' names are; anything
      else would print as '?'. */
  function Ascii(s: string): (t: Text)
    ensures Plain(t)
  {
    seq(|s|, i requires 0 <= i < |s| => if ' ' <= s[i] <= '~' then s[i] as int else 0x3f)
  }

  predicate Plain(t: Text) {
    forall b <- t :: 0x20 <= b < 0x7f
  }

  predicate Whitespace(b: Byte) {
    b == 0x20 || b == 0x09 || b == 0x0a || b == 0x0c || b == 0x0d
  }

  predicate Blank(t: Text) {
    t == [] || (Whitespace(t[0]) && Blank(t[1..]))
  }

  /** `trim_ascii_end`. */
  function TrimEnd(t: Text): Text {
    if t != [] && Whitespace(t[|t| - 1]) then TrimEnd(t[..|t| - 1]) else t
  }

  /** A clock reading, printed in ASCII. */
  type Stamp = t: Text | Plain(t)

  /** JSON printing and parsing. `parse` reads a `Line`, `read` a `Record`;
      `valid` tells which byte strings are texts. The two readers are independent:
      replay also reads a kind written as `{"ledger_integrity":null}`, which is no
      string and so no `Line`. */
  datatype Codec = Codec(
    valid: Text -> bool,
    write: Line -> Text,
    parse: Text -> Option<Line>,
    render: Json -> Text,
    read: Text -> Option<Record>)
  {
    /** A line of texts whose payload is printed JSON. */
    ghost predicate Printable(l: Line) {
      && valid(l.prev) && valid(l.ts) && valid(l.kind) && valid(l.digest)
      && exists j :: l.payload == render(j)
    }

    /** ASCII is text, and what is parsed is text. */
    ghost predicate SpeaksText() {
      && (forall t :: Plain(t) ==> valid(t))
      && (forall t :: parse(t).Some? ==> valid(parse(t).value.digest))
    }

    /** Parsing undoes printing. */
    ghost predicate RoundTrips() {
      forall l :: Printable(l) ==> parse(write(l)) == Some(l)
    }

    /** A printed line is one line that starts and ends visibly. */
    ghost predicate PrintsVisibly() {
      forall l :: Printable(l) ==> OneVisibleLine(write(l))
    }

    /** No non-empty proper prefix of a printed line reads as anything. */
    ghost predicate PrefixFree() {
      forall l, n :: Printable(l) && 0 < n < |write(l)| ==>
        parse(write(l)[..n]) == None && read(write(l)[..n]) == None
    }

    /** Replay reads back the kind and payload that were printed. */
    ghost predicate Rereads() {
      forall l, k: Kind, j {:trigger render(j), Ascii(k.Name()), write(l)} ::
        Printable(l) && l.kind == Ascii(k.Name()) && l.payload == render(j) ==>
          read(write(l)) == Some(Record(k, j))
    }

    ghost predicate SkipsBlanks() {
      forall t :: Blank(t) ==> parse(t) == None && read(t) == None
    }

    /** Trailing whitespace is insignificant. */
    ghost predicate TrimSafe() {
      forall t :: parse(t).Some? ==> parse(TrimEnd(t)) == parse(t)
    }

    /** JSON text holds no raw control byte. */
    ghost predicate CleanPayloads() {
      forall t :: parse(t).Some? ==> SEPARATOR !in parse(t).value.payload
    }

    /** What the model needs of serde_json. */
    ghost predicate Lawful() {
      RoundTrips() && PrintsVisibly() && PrefixFree() && Rereads()
      && SkipsBlanks() && TrimSafe() && CleanPayloads() && SpeaksText()
    }
  }

  predicate OneVisibleLine(t: Text) {
    && t != [] && NEWLINE !in t
    && !Whitespace(t[0]) && !Whitespace(t[|t| - 1])
  }

  /** What a ledger works with: the hash, `compute_digest` and the codec. */
  datatype Env = Env(hash: Text -> Text, seal: Line -> Text, codec: Codec)
  {
    /** A digest is the hash of the line's preimage. */
    ghost predicate Seals() {
      forall l {:trigger Exposed(l)} :: seal(l) == hash(Preimage(l))
    }

    /** A digest is 64 characters of plain hex text. */
    ghost predicate PlainSeals() {
      forall l :: |seal(l)| == 64 && Plain(seal(l))
    }

    ghost predicate Lawful() {
      codec.Lawful() && Seals() && PlainSeals()
    }
  }

  /** Marks the lines whose digest is unfolded in a proof. */
  ghost predicate Exposed(l: Line) { true }

  // ---- the digest preimage ------------------------------------------------

  function Fields(l: Line): Text {
    l.prev + [SEPARATOR] + (l.ts + [SEPARATOR] + (l.kind + [SEPARATOR] + l.payload))
  }

  /** `compute_digest`'s input: the fields joined by unit separators. */
  function Preimage(l: Line): Text {
    BigEndian(l.number, 8) + [SEPARATOR] + Fields(l)
  }

  /** The fields the digest covers. */
  ghost predicate SameContent(a: Line, b: Line) {
    a.number == b.number && a.prev == b.prev && a.ts == b.ts && a.kind == b.kind && a.payload == b.payload
  }

  ghost predicate Unseparated(l: Line) {
    SEPARATOR !in l.prev && SEPARATOR !in l.ts && SEPARATOR !in l.kind
  }

  lemma {:induction false} FieldPieces(l: Line)
    requires SEPARATOR !in l.payload
    ensures Split(Fields(l), SEPARATOR) ==
              Split(l.prev, SEPARATOR) + Split(l.ts, SEPARATOR) + Split(l.kind, SEPARATOR) + [l.payload]
  {
    var last := l.kind + [SEPARATOR] + l.payload;
    SplitAt(l.prev, SEPARATOR, l.ts + [SEPARATOR] + last);
    SplitAt(l.ts, SEPARATOR, last);
    SplitAt(l.kind, SEPARATOR, l.payload);
    SinglePiece(l.payload, SEPARATOR);
    var a, b, c := Split(l.prev, SEPARATOR), Split(l.ts, SEPARATOR), Split(l.kind, SEPARATOR);
    Regroup(a, b, c + [l.payload]);
    Regroup(a + b, c, [l.payload]);
  }

  /** Equal preimages mean equal fields as soon as one side's text fields hold
      no separator: the other side then cannot hold one either, by count. */
  lemma FramingInjective(a: Line, b: Line)
    requires SEPARATOR !in a.payload && SEPARATOR !in b.payload
    requires Unseparated(a)
    requires Preimage(a) == Preimage(b)
    ensures SameContent(a, b)
  {
    assert Preimage(a)[..8] == BigEndian(a.number, 8) && Preimage(b)[..8] == BigEndian(b.number, 8);
    EightBytes();
    BigEndianInjective(a.number, b.number, 8);
    assert Preimage(a)[9..] == Fields(a) && Preimage(b)[9..] == Fields(b);
    FieldPieces(a);
    FieldPieces(b);
    SinglePiece(a.prev, SEPARATOR);
    SinglePiece(a.ts, SEPARATOR);
    SinglePiece(a.kind, SEPARATOR);
    SinglePiece(b.prev, SEPARATOR);
    SinglePiece(b.ts, SEPARATOR);
    SinglePiece(b.kind, SEPARATOR);
    var pieces := Split(Fields(a), SEPARATOR);
    assert pieces == [a.prev, a.ts, a.kind, a.payload];
    assert pieces == [b.prev, b.ts, b.kind, b.payload];
  }

  /** A separator inside a text field lets the bytes be framed another way. */
  lemma AmbiguousTwin(a: Line) returns (b: Line)
    requires !Unseparated(a)
    ensures Preimage(b) == Preimage(a) && b.payload == a.payload && !SameContent(a, b)
  {
    if SEPARATOR in a.prev {
      var i :| 0 <= i < |a.prev| && a.prev[i] == SEPARATOR;
      b := a.(prev := a.prev[..i], ts := a.prev[i + 1..] + [SEPARATOR] + a.ts);
      Reframe(a.prev, i, a.ts);
      SamePrefix(a, b);
    } else if SEPARATOR in a.ts {
      var i :| 0 <= i < |a.ts| && a.ts[i] == SEPARATOR;
      b := a.(ts := a.ts[..i], kind := a.ts[i + 1..] + [SEPARATOR] + a.kind);
      Reframe(a.ts, i, a.kind);
      SameSuffix(a, b);
    } else {
      var i :| 0 <= i < |a.kind| && a.kind[i] == SEPARATOR;
      b := a.(ts := a.ts + [SEPARATOR] + a.kind[..i], kind := a.kind[i + 1..]);
      assert a.kind == a.kind[..i] + [SEPARATOR] + a.kind[i + 1..];
      assert |b.ts| > |a.ts| && a.ts + [SEPARATOR] + a.kind == b.ts + [SEPARATOR] + b.kind;
      SameSuffix(a, b);
    }
  }

  lemma Reframe(t: Text, i: nat, next: Text)
    requires i < |t| && t[i] == SEPARATOR
    ensures t + [SEPARATOR] + next == t[..i] + [SEPARATOR] + (t[i + 1..] + [SEPARATOR] + next)
  {
    assert t == t[..i] + [SEPARATOR] + t[i + 1..];
  }

  lemma SamePrefix(a: Line, b: Line)
    requires a.kind == b.kind && a.payload == b.payload && a.number == b.number
    requires a.prev + [SEPARATOR] + a.ts == b.prev + [SEPARATOR] + b.ts
    ensures Preimage(a) == Preimage(b)
  {
    var tail := [SEPARATOR] + (a.kind + [SEPARATOR] + a.payload);
    assert Fields(a) == (a.prev + [SEPARATOR] + a.ts) + tail;
    assert Fields(b) == (b.prev + [SEPARATOR] + b.ts) + tail;
  }

  lemma SameSuffix(a: Line, b: Line)
    requires a.prev == b.prev && a.payload == b.payload && a.number == b.number
    requires a.ts + [SEPARATOR] + a.kind == b.ts + [SEPARATOR] + b.kind
    ensures Preimage(a) == Preimage(b)
  {
    var head, tail := a.prev + [SEPARATOR], [SEPARATOR] + a.payload;
    assert Fields(a) == head + (a.ts + [SEPARATOR] + a.kind) + tail;
    assert Fields(b) == head + (b.ts + [SEPARATOR] + b.kind) + tail;
  }

  /** The framing binds a line's fields exactly when none of `prev`, `ts` and
      `kind` holds the separator byte. */
  lemma FramingExact(a: Line)
    requires SEPARATOR !in a.payload
    ensures Unseparated(a) <==>
              forall b: Line :: SEPARATOR !in b.payload && Preimage(b) == Preimage(a) ==> SameContent(a, b)
  {
    if Unseparated(a) {
      forall b: Line | SEPARATOR !in b.payload && Preimage(b) == Preimage(a) ensures SameContent(a, b) {
        FramingInjective(a, b);
      }
    } else {
      var b := AmbiguousTwin(a);
    }
  }
}
