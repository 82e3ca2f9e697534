/** The codec laws can be met: a self-delimiting text form that keeps every one
    of them, and a ledger environment built on it for any 64-character hash. */
module LedgerWitness {
  import opened Common
  import opened LedgerFormat

  const TICK: Byte := 0x61
  const STOP: Byte := 0x62
  const ITEM: Byte := 0x63
  const END: Byte := 0x64

  predicate Visible(t: Text) {
    forall b <- t :: TICK <= b <= END
  }

  // Each Put writes one value in front of what follows it.

  function PutNat(n: nat, s: Text): (r: Text)
    requires Visible(s)
    ensures r != [] && Visible(r)
  {
    if n == 0 then [STOP] + s else [TICK] + PutNat(n - 1, s)
  }

  function PutText(t: Text, s: Text): (r: Text)
    requires Visible(s)
    ensures r != [] && Visible(r)
  {
    if t == [] then [END] + s else [ITEM] + PutNat(t[0], PutText(t[1..], s))
  }

  function PutString(t: string, s: Text): (r: Text)
    requires Visible(s)
    ensures r != [] && Visible(r)
  {
    if t == [] then [END] + s else [ITEM] + PutNat(t[0] as nat, PutString(t[1..], s))
  }

  function PutLeaf(v: Leaf, s: Text): (r: Text)
    requires Visible(s)
    ensures r != [] && Visible(r)
  {
    match v
    case Null => PutNat(0, s)
    case Bool(b) => PutNat(if b then 1 else 2, s)
    case Number(n) => PutNat(3, PutNat(n, s))
    case Str(t) => PutNat(4, PutString(t, s))
  }

  /** The keys of an object in one fixed order. */
  ghost function Order(keys: set<Key>): (order: seq<Key>)
    ensures forall k :: k in order <==> k in keys
  {
    if keys == {} then [] else var k :| k in keys; [k] + Order(keys - {k})
  }

  ghost predicate Listed<V>(m: map<Key, V>, order: seq<Key>) {
    forall k <- order :: k in m
  }

  ghost function PutCells(m: Row, order: seq<Key>, s: Text): (r: Text)
    requires Visible(s) && Listed(m, order)
    ensures r != [] && Visible(r)
  {
    if order == [] then [END] + s
    else [ITEM] + PutString(order[0], PutLeaf(m[order[0]], PutCells(m, order[1..], s)))
  }

  ghost function PutRow(m: Row, s: Text): (r: Text)
    requires Visible(s)
    ensures r != [] && Visible(r)
  {
    PutCells(m, Order(m.Keys), s)
  }

  ghost function PutRows(rows: seq<Row>, s: Text): (r: Text)
    requires Visible(s)
    ensures r != [] && Visible(r)
  {
    if rows == [] then [END] + s else [ITEM] + PutRow(rows[0], PutRows(rows[1..], s))
  }

  ghost function PutValue(v: Value, s: Text): (r: Text)
    requires Visible(s)
    ensures r != [] && Visible(r)
  {
    match v
    case One(leaf) => PutNat(0, PutLeaf(leaf, s))
    case Many(rows) => PutNat(1, PutRows(rows, s))
  }

  ghost function PutFields(m: map<Key, Value>, order: seq<Key>, s: Text): (r: Text)
    requires Visible(s) && Listed(m, order)
    ensures r != [] && Visible(r)
  {
    if order == [] then [END] + s
    else [ITEM] + PutString(order[0], PutValue(m[order[0]], PutFields(m, order[1..], s)))
  }

  ghost function PutJson(j: Json, s: Text): (r: Text)
    requires Visible(s)
    ensures r != [] && Visible(r)
  {
    PutFields(j.fields, Order(j.fields.Keys), s)
  }

  function PutLine(l: Line, s: Text): (r: Text)
    requires Visible(s)
    ensures r != [] && Visible(r)
  {
    PutNat(l.number, PutText(l.prev, PutText(l.ts, PutText(l.kind, PutText(l.payload, PutText(l.digest, s))))))
  }

  // ---- what was written can be read in one way only -----------------------

  lemma Peel(b: Byte, x: Text, c: Byte, y: Text)
    requires [b] + x == [c] + y
    ensures b == c && x == y
  {
    assert ([b] + x)[0] == ([c] + y)[0];
    assert ([b] + x)[1..] == x && ([c] + y)[1..] == y;
  }

  lemma {:induction false} NatOnce(n: nat, s: Text, m: nat, t: Text)
    requires Visible(s) && Visible(t) && PutNat(n, s) == PutNat(m, t)
    ensures n == m && s == t
  {
    Peel(if n == 0 then STOP else TICK, if n == 0 then s else PutNat(n - 1, s),
         if m == 0 then STOP else TICK, if m == 0 then t else PutNat(m - 1, t));
    if n > 0 && m > 0 {
      NatOnce(n - 1, s, m - 1, t);
    }
  }

  lemma {:induction false} TextOnce(x: Text, s: Text, y: Text, t: Text)
    requires Visible(s) && Visible(t) && PutText(x, s) == PutText(y, t)
    ensures x == y && s == t
  {
    Peel(if x == [] then END else ITEM, if x == [] then s else PutNat(x[0], PutText(x[1..], s)),
         if y == [] then END else ITEM, if y == [] then t else PutNat(y[0], PutText(y[1..], t)));
    if x != [] && y != [] {
      NatOnce(x[0], PutText(x[1..], s), y[0], PutText(y[1..], t));
      TextOnce(x[1..], s, y[1..], t);
      assert x == [x[0]] + x[1..] && y == [y[0]] + y[1..];
    }
  }

  lemma {:induction false} StringOnce(x: string, s: Text, y: string, t: Text)
    requires Visible(s) && Visible(t) && PutString(x, s) == PutString(y, t)
    ensures x == y && s == t
  {
    Peel(if x == [] then END else ITEM, if x == [] then s else PutNat(x[0] as nat, PutString(x[1..], s)),
         if y == [] then END else ITEM, if y == [] then t else PutNat(y[0] as nat, PutString(y[1..], t)));
    if x != [] && y != [] {
      NatOnce(x[0] as nat, PutString(x[1..], s), y[0] as nat, PutString(y[1..], t));
      StringOnce(x[1..], s, y[1..], t);
      assert x == [x[0]] + x[1..] && y == [y[0]] + y[1..];
    }
  }

  lemma LeafOnce(x: Leaf, s: Text, y: Leaf, t: Text)
    requires Visible(s) && Visible(t) && PutLeaf(x, s) == PutLeaf(y, t)
    ensures x == y && s == t
  {
    NatOnce(LeafTag(x), LeafBody(x, s), LeafTag(y), LeafBody(y, t));
    match x
    case Null =>
    case Bool(_) =>
    case Number(n) => NatOnce(n, s, y.n, t);
    case Str(text) => StringOnce(text, s, y.s, t);
  }

  function LeafTag(v: Leaf): nat {
    match v
    case Null => 0
    case Bool(b) => if b then 1 else 2
    case Number(_) => 3
    case Str(_) => 4
  }

  function LeafBody(v: Leaf, s: Text): (r: Text)
    requires Visible(s)
    ensures Visible(r) && PutLeaf(v, s) == PutNat(LeafTag(v), r)
  {
    match v
    case Null => s
    case Bool(_) => s
    case Number(n) => PutNat(n, s)
    case Str(t) => PutString(t, s)
  }

  lemma SameFront<T>(p: seq<T>, q: seq<T>)
    requires p != [] && q != [] && p[0] == q[0]
    ensures p[1..] == q[1..] ==> p == q
    ensures forall x <- p :: x == p[0] || x in p[1..]
  {
    assert p == [p[0]] + p[1..] && q == [q[0]] + q[1..];
  }

  /** Two objects listed alike with equal values are equal. */
  lemma SameObject<V>(x: map<Key, V>, y: map<Key, V>)
    requires Order(x.Keys) == Order(y.Keys)
    requires forall k <- Order(x.Keys) :: k in y && x[k] == y[k]
    ensures x == y
  {
    assert forall k :: k in x <==> k in Order(x.Keys);
    assert forall k :: k in y <==> k in Order(y.Keys);
  }

  lemma {:induction false} CellsOnce(x: Row, p: seq<Key>, s: Text, y: Row, q: seq<Key>, t: Text)
    requires Visible(s) && Visible(t) && Listed(x, p) && Listed(y, q) && PutCells(x, p, s) == PutCells(y, q, t)
    ensures p == q && s == t && forall k <- p :: k in y && x[k] == y[k]
    decreases p
  {
    Peel(if p == [] then END else ITEM, if p == [] then s else CellThen(x, p, s),
         if q == [] then END else ITEM, if q == [] then t else CellThen(y, q, t));
    if p != [] && q != [] {
      CellThenOnce(x, p, s, y, q, t);
      CellsOnce(x, p[1..], s, y, q[1..], t);
      SameFront(p, q);
    }
  }

  lemma CellThenOnce(x: Row, p: seq<Key>, s: Text, y: Row, q: seq<Key>, t: Text)
    requires Visible(s) && Visible(t) && Listed(x, p) && Listed(y, q) && p != [] && q != []
    requires CellThen(x, p, s) == CellThen(y, q, t)
    ensures p[0] == q[0] && x[p[0]] == y[q[0]] && PutCells(x, p[1..], s) == PutCells(y, q[1..], t)
  {
    var xs, ys := PutCells(x, p[1..], s), PutCells(y, q[1..], t);
    StringOnce(p[0], PutLeaf(x[p[0]], xs), q[0], PutLeaf(y[q[0]], ys));
    LeafOnce(x[p[0]], xs, y[q[0]], ys);
  }

  ghost function CellThen(m: Row, order: seq<Key>, s: Text): (r: Text)
    requires Visible(s) && order != [] && Listed(m, order)
    ensures Visible(r)
  {
    PutString(order[0], PutLeaf(m[order[0]], PutCells(m, order[1..], s)))
  }

  lemma RowOnce(x: Row, s: Text, y: Row, t: Text)
    requires Visible(s) && Visible(t) && PutRow(x, s) == PutRow(y, t)
    ensures x == y && s == t
  {
    CellsOnce(x, Order(x.Keys), s, y, Order(y.Keys), t);
    SameObject(x, y);
  }

  lemma {:induction false} RowsOnce(x: seq<Row>, s: Text, y: seq<Row>, t: Text)
    requires Visible(s) && Visible(t) && PutRows(x, s) == PutRows(y, t)
    ensures x == y && s == t
    decreases x
  {
    Peel(if x == [] then END else ITEM, if x == [] then s else PutRow(x[0], PutRows(x[1..], s)),
         if y == [] then END else ITEM, if y == [] then t else PutRow(y[0], PutRows(y[1..], t)));
    if x != [] && y != [] {
      RowOnce(x[0], PutRows(x[1..], s), y[0], PutRows(y[1..], t));
      RowsOnce(x[1..], s, y[1..], t);
      assert x == [x[0]] + x[1..] && y == [y[0]] + y[1..];
    }
  }

  lemma ValueOnce(x: Value, s: Text, y: Value, t: Text)
    requires Visible(s) && Visible(t) && PutValue(x, s) == PutValue(y, t)
    ensures x == y && s == t
  {
    NatOnce(if x.One? then 0 else 1, if x.One? then PutLeaf(x.leaf, s) else PutRows(x.rows, s),
            if y.One? then 0 else 1, if y.One? then PutLeaf(y.leaf, t) else PutRows(y.rows, t));
    if x.One? {
      LeafOnce(x.leaf, s, y.leaf, t);
    } else {
      RowsOnce(x.rows, s, y.rows, t);
    }
  }

  ghost function FieldThen(m: map<Key, Value>, order: seq<Key>, s: Text): (r: Text)
    requires Visible(s) && order != [] && Listed(m, order)
    ensures Visible(r)
  {
    PutString(order[0], PutValue(m[order[0]], PutFields(m, order[1..], s)))
  }

  lemma {:induction false} FieldsOnce(x: map<Key, Value>, p: seq<Key>, s: Text,
                                      y: map<Key, Value>, q: seq<Key>, t: Text)
    requires Visible(s) && Visible(t) && Listed(x, p) && Listed(y, q) && PutFields(x, p, s) == PutFields(y, q, t)
    ensures p == q && s == t && forall k <- p :: k in y && x[k] == y[k]
    decreases p
  {
    Peel(if p == [] then END else ITEM, if p == [] then s else FieldThen(x, p, s),
         if q == [] then END else ITEM, if q == [] then t else FieldThen(y, q, t));
    if p != [] && q != [] {
      FieldThenOnce(x, p, s, y, q, t);
      FieldsOnce(x, p[1..], s, y, q[1..], t);
      SameFront(p, q);
    }
  }

  lemma FieldThenOnce(x: map<Key, Value>, p: seq<Key>, s: Text, y: map<Key, Value>, q: seq<Key>, t: Text)
    requires Visible(s) && Visible(t) && Listed(x, p) && Listed(y, q) && p != [] && q != []
    requires FieldThen(x, p, s) == FieldThen(y, q, t)
    ensures p[0] == q[0] && x[p[0]] == y[q[0]] && PutFields(x, p[1..], s) == PutFields(y, q[1..], t)
  {
    var xs, ys := PutFields(x, p[1..], s), PutFields(y, q[1..], t);
    StringOnce(p[0], PutValue(x[p[0]], xs), q[0], PutValue(y[q[0]], ys));
    ValueOnce(x[p[0]], xs, y[q[0]], ys);
  }

  lemma JsonOnce(x: Json, s: Text, y: Json, t: Text)
    requires Visible(s) && Visible(t) && PutJson(x, s) == PutJson(y, t)
    ensures x == y && s == t
  {
    FieldsOnce(x.fields, Order(x.fields.Keys), s, y.fields, Order(y.fields.Keys), t);
    SameObject(x.fields, y.fields);
  }

  lemma LineOnce(k: Line, s: Text, l: Line, t: Text)
    requires Visible(s) && Visible(t) && PutLine(k, s) == PutLine(l, t)
    ensures k == l && s == t
  {
    var k5, l5 := PutText(k.digest, s), PutText(l.digest, t);
    var k4, l4 := PutText(k.payload, k5), PutText(l.payload, l5);
    var k3, l3 := PutText(k.kind, k4), PutText(l.kind, l4);
    var k2, l2 := PutText(k.ts, k3), PutText(l.ts, l3);
    NatOnce(k.number, PutText(k.prev, k2), l.number, PutText(l.prev, l2));
    TextOnce(k.prev, k2, l.prev, l2);
    TextOnce(k.ts, k3, l.ts, l3);
    TextOnce(k.kind, k4, l.kind, l4);
    TextOnce(k.payload, k5, l.payload, l5);
    TextOnce(k.digest, s, l.digest, t);
  }

  // ---- what follows a value stays behind it -------------------------------

  lemma {:induction false} NatThen(n: nat, s: Text, t: Text)
    requires Visible(s) && Visible(t)
    ensures PutNat(n, s) + t == PutNat(n, s + t)
  {
    if n == 0 {
      assert [STOP] + s + t == [STOP] + (s + t);
    } else {
      NatThen(n - 1, s, t);
      assert [TICK] + PutNat(n - 1, s) + t == [TICK] + (PutNat(n - 1, s) + t);
    }
  }

  lemma {:induction false} TextThen(x: Text, s: Text, t: Text)
    requires Visible(s) && Visible(t)
    ensures PutText(x, s) + t == PutText(x, s + t)
  {
    if x == [] {
      assert [END] + s + t == [END] + (s + t);
    } else {
      var rest := PutText(x[1..], s);
      TextThen(x[1..], s, t);
      NatThen(x[0], rest, t);
      assert [ITEM] + PutNat(x[0], rest) + t == [ITEM] + (PutNat(x[0], rest) + t);
    }
  }

  lemma LineThen(l: Line, t: Text)
    requires Visible(t)
    ensures PutLine(l, []) + t == PutLine(l, t)
  {
    var l5 := PutText(l.digest, []);
    var l4 := PutText(l.payload, l5);
    var l3 := PutText(l.kind, l4);
    var l2 := PutText(l.ts, l3);
    var l1 := PutText(l.prev, l2);
    NatThen(l.number, l1, t);
    TextThen(l.prev, l2, t);
    TextThen(l.ts, l3, t);
    TextThen(l.kind, l4, t);
    TextThen(l.payload, l5, t);
    TextThen(l.digest, [], t);
    assert [] + t == t;
  }

  /** No printed line is a proper prefix of another. */
  lemma NoProperPrefix(k: Line, l: Line, n: nat)
    requires n < |PutLine(k, [])|
    ensures PutLine(k, [])[..n] != PutLine(l, [])
  {
    var whole := PutLine(k, []);
    if whole[..n] == PutLine(l, []) {
      var rest := whole[n..];
      assert whole == whole[..n] + rest && forall b <- rest :: b in whole;
      LineThen(l, rest);
      LineOnce(k, [], l, rest);
      assert false;
    }
  }

  // ---- the codec ----------------------------------------------------------

  ghost function Render(j: Json): Text { PutJson(j, []) }

  function Write(l: Line): Text { PutLine(l, []) }

  ghost predicate Rendered(t: Text) {
    exists j :: t == Render(j)
  }

  ghost predicate Wrote(t: Text, l: Line) {
    t == Write(l) && Rendered(l.payload)
  }

  ghost function Parse(t: Text): Option<Line> {
    if exists l :: Wrote(t, l) then var l :| Wrote(t, l); Some(l) else None
  }

  ghost predicate Stated(l: Line, r: Record) {
    l.kind == Ascii(r.kind.Name()) && l.payload == Render(r.payload)
  }

  /** A line that replay reads and the chain does not parse, as serde_json has some. */
  const ASIDE: Text := [0x65]

  ghost function Read(t: Text): Option<Record> {
    if t == ASIDE then Some(Record(LedgerIntegrity, Json(map[])))
    else if exists r :: Says(t, r) then var r :| Says(t, r); Some(r) else None
  }

  ghost predicate Says(t: Text, r: Record) {
    exists l :: Wrote(t, l) && Stated(l, r)
  }

  /** Nothing that does not print reads, but for the aside. */
  lemma UnwrittenUnread(t: Text)
    requires t != ASIDE && forall l :: !Wrote(t, l)
    ensures Parse(t) == None && Read(t) == None
  {
  }

  lemma AsideUnwritten(l: Line)
    ensures Write(l) != ASIDE && !Wrote(ASIDE, l)
  {
    assert Visible(Write(l)) && ASIDE[0] in ASIDE && !Visible(ASIDE);
  }

  lemma ParseWritten(l: Line)
    requires Rendered(l.payload)
    ensures Parse(Write(l)) == Some(l)
  {
    assert Wrote(Write(l), l);
    var k := Parse(Write(l)).value;
    LineOnce(k, [], l, []);
  }

  lemma KindNamed(j: Kind, k: Kind)
    requires Ascii(j.Name()) == Ascii(k.Name())
    ensures j == k
  {
    var a, b := Ascii(j.Name()), Ascii(k.Name());
    assert |a| == |b| && a[0] == b[0] && a[1] == b[1];
  }

  lemma ReadWritten(l: Line, r: Record)
    requires Stated(l, r)
    ensures Read(Write(l)) == Some(r)
  {
    var t := Write(l);
    assert Wrote(t, l);
    AsideUnwritten(l);
    assert Says(t, r);
    var q := Read(t).value;
    var k :| Wrote(t, k) && Stated(k, q);
    LineOnce(k, [], l, []);
    KindNamed(q.kind, r.kind);
    JsonOnce(q.payload, [], r.payload, []);
  }

  lemma VisibleBounds(t: Text)
    requires t != [] && Visible(t)
    ensures OneVisibleLine(t) && SEPARATOR !in t && TrimEnd(t) == t
  {
    assert t[0] in t && t[|t| - 1] in t;
  }

  ghost function Sample(): Codec { Codec(t => true, Write, Parse, Render, Read) }

  lemma SamplePrints()
    ensures Sample().RoundTrips() && Sample().PrintsVisibly() && Sample().PrefixFree()
  {
    var c := Sample();
    forall l | c.Printable(l) ensures c.parse(c.write(l)) == Some(l) && OneVisibleLine(c.write(l)) {
      ParseWritten(l);
      VisibleBounds(Write(l));
    }
    forall l, n | c.Printable(l) && 0 < n < |c.write(l)|
      ensures c.parse(c.write(l)[..n]) == None && c.read(c.write(l)[..n]) == None
    {
      PrefixUnread(l, n);
    }
  }

  lemma PrefixUnread(l: Line, n: nat)
    requires 0 < n < |Write(l)|
    ensures Parse(Write(l)[..n]) == None && Read(Write(l)[..n]) == None
  {
    var t := Write(l)[..n];
    assert t[0] in Write(l);
    forall k ensures !Wrote(t, k) {
      NoProperPrefix(l, k, n);
    }
    UnwrittenUnread(t);
  }

  lemma SampleReads()
    ensures Sample().Rereads() && Sample().SkipsBlanks() && Sample().TrimSafe() && Sample().CleanPayloads()
    ensures Sample().SpeaksText()
  {
    var c := Sample();
    forall l, k: Kind, j | c.Printable(l) && l.kind == Ascii(k.Name()) && l.payload == c.render(j)
      ensures c.read(c.write(l)) == Some(Record(k, j))
    {
      ReadWritten(l, Record(k, j));
    }
    forall t, l | Wrote(t, l) ensures !Blank(t) && TrimEnd(t) == t && SEPARATOR !in l.payload {
      VisibleBounds(t);
      VisibleBounds(l.payload);
    }
  }

  /** Every law holds at once, for any hash with 64-character plain digests, also
      where replay reads a line that the chain does not parse. */
  lemma LawsAreMet(hash: Text -> Text) returns (env: Env)
    requires forall t :: |hash(t)| == 64 && Plain(hash(t))
    ensures env.hash == hash && env.Lawful()
    ensures OneVisibleLine(ASIDE) && env.codec.parse(ASIDE) == None && env.codec.read(ASIDE).Some?
  {
    forall l ensures !Wrote(ASIDE, l) {
      AsideUnwritten(l);
    }
    SamplePrints();
    SampleReads();
    env := Env(hash, l => hash(Preimage(l)), Sample());
    forall l: Line ensures |env.seal(l)| == 64 && Plain(env.seal(l)) {
      assert env.seal(l) == hash(Preimage(l));
    }
  }
}
