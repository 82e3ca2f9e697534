/** What a list of byte changes means: the child is the parent with disjoint,
    ordered segments replaced, and every other byte is carried over in order. */
module RangeSplice {
  import opened Common
  import opened RangeEvidence

  /** Coordinates of one change against the offsets reached so far. */
  predicate Placed(c: ByteChange, po: nat, co: nat, parent: nat, child: nat) {
    && po <= c.parentStart <= c.parentEnd <= parent
    && co <= c.childStart <= c.childEnd <= child
  }

  /** Lines 585-637: changes in order, equal bytes in every gap and at the end. */
  predicate Coverage(cs: seq<ByteChange>, before: seq<Byte>, after: seq<Byte>, po: nat, co: nat)
    requires po <= |before| && co <= |after|
  {
    if cs == [] then before[po..] == after[co..]
    else
      var c := cs[0];
      && Placed(c, po, co, |before|, |after|)
      && before[po..c.parentStart] == after[co..c.childStart]
      && Coverage(cs[1..], before, after, c.parentEnd, c.childEnd)
  }

  /** The child rebuilt from the parent's bytes and the recorded replacements. */
  function Rebuild(cs: seq<ByteChange>, before: seq<Byte>, after: seq<Byte>, po: nat, co: nat): seq<Byte>
    requires po <= |before| && co <= |after|
    requires Aligned(cs, po, co, |before|, |after|)
  {
    if cs == [] then before[po..]
    else
      var c := cs[0];
      before[po..c.parentStart] + after[c.childStart..c.childEnd]
      + Rebuild(cs[1..], before, after, c.parentEnd, c.childEnd)
  }

  /** Ordered, in bounds, and with unchanged gaps of equal length on both sides. */
  predicate Aligned(cs: seq<ByteChange>, po: nat, co: nat, parent: nat, child: nat)
    requires po <= parent && co <= child
  {
    if cs == [] then parent - po == child - co
    else
      var c := cs[0];
      && Placed(c, po, co, parent, child)
      && c.parentStart - po == c.childStart - co
      && Aligned(cs[1..], c.parentEnd, c.childEnd, parent, child)
  }

  /** The gap comparison accepts exactly the change lists that rebuild the child. */
  lemma {:induction false} CoverageIsSplice(cs: seq<ByteChange>, before: seq<Byte>, after: seq<Byte>, po: nat, co: nat)
    requires po <= |before| && co <= |after|
    ensures Coverage(cs, before, after, po, co) <==>
              && Aligned(cs, po, co, |before|, |after|)
              && after[co..] == Rebuild(cs, before, after, po, co)
  {
    if cs != [] {
      var c := cs[0];
      if Placed(c, po, co, |before|, |after|) {
        CoverageIsSplice(cs[1..], before, after, c.parentEnd, c.childEnd);
        if c.parentStart - po == c.childStart - co && Aligned(cs[1..], c.parentEnd, c.childEnd, |before|, |after|) {
          var gap := before[po..c.parentStart];
          var text := after[c.childStart..c.childEnd];
          var rest := Rebuild(cs[1..], before, after, c.parentEnd, c.childEnd);
          assert after[co..] == after[co..c.childStart] + text + after[c.childEnd..];
          SameParts(gap, after[co..c.childStart], text, rest, after[c.childEnd..]);
        } else if before[po..c.parentStart] == after[co..c.childStart] {
          assert |before[po..c.parentStart]| == |after[co..c.childStart]|;
        }
      }
    }
  }

  lemma SameParts(a: seq<Byte>, a': seq<Byte>, text: seq<Byte>, b: seq<Byte>, b': seq<Byte>)
    requires |a| == |a'|
    ensures a + text + b == a' + text + b' <==> a == a' && b == b'
  {
    var l, r := a + text + b, a' + text + b';
    if l == r {
      assert l[..|a|] == a && r[..|a|] == a';
      assert l[|a| + |text|..] == b && r[|a| + |text|..] == b';
    }
  }

  /** A parent offset no change replaces. */
  predicate Kept(cs: seq<ByteChange>, i: nat) {
    forall c <- cs :: !(c.parentStart <= i < c.parentEnd)
  }

  /** Where a kept parent byte lands in the child. */
  function ToChild(cs: seq<ByteChange>, po: nat, co: nat, i: nat): int {
    if cs == [] || i < cs[0].parentStart then co + i - po
    else ToChild(cs[1..], cs[0].parentEnd, cs[0].childEnd, i)
  }

  /** The same changes read from child to parent. */
  function Reversed(cs: seq<ByteChange>): (r: seq<ByteChange>)
    ensures |r| == |cs|
    ensures forall k :: 0 <= k < |cs| ==>
              r[k] == ByteChange(cs[k].childStart, cs[k].childEnd, cs[k].parentStart, cs[k].parentEnd)
  {
    seq(|cs|, k requires 0 <= k < |cs| =>
        ByteChange(cs[k].childStart, cs[k].childEnd, cs[k].parentStart, cs[k].parentEnd))
  }

  lemma {:induction false} ReversedCoverage(cs: seq<ByteChange>, before: seq<Byte>, after: seq<Byte>, po: nat, co: nat)
    requires po <= |before| && co <= |after|
    requires Coverage(cs, before, after, po, co)
    ensures Coverage(Reversed(cs), after, before, co, po)
  {
    if cs != [] {
      assert Reversed(cs)[1..] == Reversed(cs[1..]);
      ReversedCoverage(cs[1..], before, after, cs[0].parentEnd, cs[0].childEnd);
    }
  }

  /** Changes still to come begin at or after the offsets reached. */
  lemma {:induction false} LaterChanges(cs: seq<ByteChange>, before: seq<Byte>, after: seq<Byte>, po: nat, co: nat)
    requires po <= |before| && co <= |after|
    requires Coverage(cs, before, after, po, co)
    ensures forall c <- cs :: po <= c.parentStart <= c.parentEnd <= |before|
                           && co <= c.childStart <= c.childEnd <= |after|
  {
    if cs != [] {
      LaterChanges(cs[1..], before, after, cs[0].parentEnd, cs[0].childEnd);
      assert cs == [cs[0]] + cs[1..];
    }
  }

  /** A kept parent byte is the byte at its image, the image is kept on the
      child side, and mapping back returns to the parent offset. */
  lemma {:induction false} KeptByte(cs: seq<ByteChange>, before: seq<Byte>, after: seq<Byte>, po: nat, co: nat, i: nat)
    requires po <= |before| && co <= |after|
    requires Coverage(cs, before, after, po, co)
    requires po <= i < |before| && Kept(cs, i)
    ensures co <= ToChild(cs, po, co, i) < |after|
    ensures after[ToChild(cs, po, co, i)] == before[i]
    ensures Kept(Reversed(cs), ToChild(cs, po, co, i))
    ensures ToChild(Reversed(cs), co, po, ToChild(cs, po, co, i)) == i
  {
    LaterChanges(cs, before, after, po, co);
    var j := ToChild(cs, po, co, i);
    if cs == [] {
      assert before[po..][i - po] == after[co..][i - po];
    } else {
      var c := cs[0];
      if i < c.parentStart {
        assert |before[po..c.parentStart]| == |after[co..c.childStart]|;
        assert before[po..c.parentStart][i - po] == after[co..c.childStart][i - po];
        LaterChanges(cs[1..], before, after, c.parentEnd, c.childEnd);
      } else {
        assert c in cs && i >= c.parentEnd;
        KeptByte(cs[1..], before, after, c.parentEnd, c.childEnd, i);
        assert Reversed(cs)[1..] == Reversed(cs[1..]);
        assert Reversed(cs) == [Reversed(cs)[0]] + Reversed(cs)[1..];
      }
    }
  }

  lemma {:induction false} KeptOrder(cs: seq<ByteChange>, before: seq<Byte>, after: seq<Byte>, po: nat, co: nat,
                                     i: nat, k: nat)
    requires po <= |before| && co <= |after|
    requires Coverage(cs, before, after, po, co)
    requires po <= i < k < |before| && Kept(cs, i) && Kept(cs, k)
    ensures ToChild(cs, po, co, i) < ToChild(cs, po, co, k)
  {
    if cs != [] {
      var c := cs[0];
      assert c in cs;
      if k < c.parentStart {
      } else if i < c.parentStart {
        assert |before[po..c.parentStart]| == |after[co..c.childStart]|;
        KeptByte(cs[1..], before, after, c.parentEnd, c.childEnd, k);
      } else {
        KeptOrder(cs[1..], before, after, c.parentEnd, c.childEnd, i, k);
      }
    }
  }

  /** A range of the parent that lies before or after each change. */
  ghost predicate Untouched(cs: seq<ByteChange>, s: nat, e: nat) {
    forall c <- cs :: c.parentEnd <= s || e <= c.parentStart
  }

  /** An untouched range is carried over verbatim and contiguously. */
  lemma {:induction false} UntouchedRange(cs: seq<ByteChange>, before: seq<Byte>, after: seq<Byte>, po: nat, co: nat,
                                          s: nat, e: nat)
    returns (at: nat)
    requires po <= |before| && co <= |after|
    requires Coverage(cs, before, after, po, co)
    requires po <= s < e <= |before| && Untouched(cs, s, e)
    ensures at == ToChild(cs, po, co, s)
    ensures at + (e - s) <= |after| && after[at..at + (e - s)] == before[s..e]
  {
    if cs == [] {
      at := co + (s - po);
      assert before[po..|before|] == before[po..] && after[co..|after|] == after[co..];
      GapCarries(before, after, po, |before|, co, |after|, s, e, at);
    } else {
      var c := cs[0];
      assert c in cs;
      if e <= c.parentStart {
        at := co + (s - po);
        GapCarries(before, after, po, c.parentStart, co, c.childStart, s, e, at);
      } else {
        assert forall d <- cs[1..] :: d in cs;
        at := UntouchedRange(cs[1..], before, after, c.parentEnd, c.childEnd, s, e);
      }
    }
  }

  /** Equal gaps carry every range inside them. */
  lemma GapCarries(before: seq<Byte>, after: seq<Byte>, po: nat, pe: nat, co: nat, ce: nat, s: nat, e: nat, at: nat)
    requires po <= s <= e <= pe <= |before| && co <= ce <= |after|
    requires before[po..pe] == after[co..ce] && at == co + (s - po)
    ensures at + (e - s) <= ce && after[at..at + (e - s)] == before[s..e]
  {
    assert |before[po..pe]| == |after[co..ce]|;
    var n := e - s;
    forall k | 0 <= k < n ensures after[at..at + n][k] == before[s..e][k] {
      assert before[po..pe][s - po + k] == after[co..ce][s - po + k];
    }
  }
}
