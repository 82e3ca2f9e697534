/** Vocabulary shared by the models: optional values, bytes, and splitting a
    sequence at a separator the way Rust's and Python's `split` do. */
module Common {

  datatype Option<+T> = None | Some(value: T)

  type Byte = b: int | 0 <= b < 256

  const NEWLINE: Byte := 0x0a

  function Least(a: int, b: int): int { if a <= b then a else b }

  function Repeat<T>(x: T, n: nat): (r: seq<T>)
    ensures |r| == n && forall i :: 0 <= i < n ==> r[i] == x
  {
    if n == 0 then [] else Repeat(x, n - 1) + [x]
  }

  /** The pieces between separators; a sequence with n separators has n + 1. */
  function Split<T(==)>(s: seq<T>, sep: T): (pieces: seq<seq<T>>)
    ensures |pieces| > 0
  {
    if s == [] then [[]]
    else
      var rest := Split(s[1..], sep);
      if s[0] == sep then [[]] + rest else [[s[0]] + rest[0]] + rest[1..]
  }

  lemma Regroup<T>(a: seq<T>, b: seq<T>, c: seq<T>)
    ensures a + (b + c) == a + b + c
  {
  }

  ghost predicate Distinct<T>(s: seq<T>) {
    forall i, j :: 0 <= i < j < |s| ==> s[i] != s[j]
  }

  /** A subset of a finite set with as many elements is the whole set. */
  lemma EqualByCount<T>(part: set<T>, whole: set<T>)
    requires part <= whole && |part| == |whole|
    ensures part == whole
  {
    assert |whole - part| == |whole| - |part|;
  }

  /** A loop over a set that has not seen everything has something left. */
  lemma Unseen<T>(seen: set<T>, all: set<T>) returns (x: T)
    requires seen <= all && seen != all
    ensures x in all && x !in seen
  {
    x :| x in all && x !in seen;
  }

  /** A separator splits independently on its two sides. */
  lemma {:induction false} SplitAt<T>(a: seq<T>, sep: T, b: seq<T>)
    ensures Split(a + [sep] + b, sep) == Split(a, sep) + Split(b, sep)
  {
    var all := a + [sep] + b;
    if a == [] {
      assert all[1..] == b;
    } else {
      assert all[1..] == a[1..] + [sep] + b;
      SplitAt(a[1..], sep, b);
    }
  }

  /** A sequence is a single piece exactly when it holds no separator. */
  lemma {:induction false} SinglePiece<T>(s: seq<T>, sep: T)
    ensures sep !in s <==> |Split(s, sep)| == 1
    ensures sep !in s ==> Split(s, sep) == [s]
  {
    if s != [] {
      SinglePiece(s[1..], sep);
      assert s == [s[0]] + s[1..];
    }
  }

  lemma {:induction false} PiecesHoldNoSeparator<T>(s: seq<T>, sep: T)
    ensures forall piece <- Split(s, sep) :: sep !in piece
  {
    if s != [] {
      PiecesHoldNoSeparator(s[1..], sep);
    }
  }

  function Join<T>(parts: seq<seq<T>>, sep: T): seq<T> {
    if parts == [] then []
    else if |parts| == 1 then parts[0]
    else Join(parts[..|parts| - 1], sep) + [sep] + parts[|parts| - 1]
  }

  /** Splitting undoes joining parts that hold no separator. */
  lemma {:induction false} JoinSplits<T>(parts: seq<seq<T>>, sep: T)
    requires parts != [] && forall t <- parts :: sep !in t
    ensures Split(Join(parts, sep), sep) == parts
  {
    var n := |parts| - 1;
    var last := parts[n];
    SinglePiece(last, sep);
    if n > 0 {
      JoinSplits(parts[..n], sep);
      SplitAt(Join(parts[..n], sep), sep, last);
    }
    assert parts == parts[..n] + [last];
  }

  lemma {:induction false} JoinFront<T>(first: seq<T>, rest: seq<seq<T>>, sep: T)
    requires rest != []
    ensures Join([first] + rest, sep) == first + [sep] + Join(rest, sep)
  {
    var n := |rest| - 1;
    var all := [first] + rest;
    assert all[..|all| - 1] == [first] + rest[..n];
    if n > 0 {
      JoinFront(first, rest[..n], sep);
    }
  }

  lemma JoinHead<T>(x: T, parts: seq<seq<T>>, sep: T)
    requires parts != []
    ensures Join([[x] + parts[0]] + parts[1..], sep) == [x] + Join(parts, sep)
  {
    if |parts| > 1 {
      JoinFront([x] + parts[0], parts[1..], sep);
      JoinFront(parts[0], parts[1..], sep);
      assert [parts[0]] + parts[1..] == parts;
    }
  }

  /** Joining undoes splitting. */
  lemma {:induction false} SplitJoins<T>(s: seq<T>, sep: T)
    ensures Join(Split(s, sep), sep) == s
  {
    if s != [] {
      var rest := Split(s[1..], sep);
      SplitJoins(s[1..], sep);
      if s[0] == sep {
        JoinFront([], rest, sep);
      } else {
        JoinHead(s[0], rest, sep);
      }
      assert s == [s[0]] + s[1..];
    }
  }

  /** The low `width` bytes of a number, most significant first. */
  function BigEndian(n: nat, width: nat): (r: seq<Byte>)
    ensures |r| == width
  {
    if width == 0 then [] else BigEndian(n / 256, width - 1) + [n % 256]
  }

  function Range(width: nat): nat {
    if width == 0 then 1 else 256 * Range(width - 1)
  }

  lemma EightBytes()
    ensures Range(8) == 0x1_0000_0000_0000_0000
  {
    assert Range(4) == 0x1_0000_0000;
    assert Range(8) == 256 * (256 * (256 * (256 * Range(4))));
  }

  lemma {:induction false} BigEndianInjective(n: nat, m: nat, width: nat)
    requires n < Range(width) && m < Range(width)
    requires BigEndian(n, width) == BigEndian(m, width)
    ensures n == m
  {
    if width > 0 {
      var a, b := BigEndian(n, width), BigEndian(m, width);
      assert a[..width - 1] == BigEndian(n / 256, width - 1) && b[..width - 1] == BigEndian(m / 256, width - 1);
      assert a[width - 1] == n % 256 && b[width - 1] == m % 256;
      BigEndianInjective(n / 256, m / 256, width - 1);
    }
  }
}
