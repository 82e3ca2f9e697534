/** SHA-256 as the supervisor computes it, against sections 4.1.2, 5.1.1, 5.2.1,
    5.3.3 and 6.2.2 of FIPS 180-4. */
module Sha256 {
  import opened Common

  /** A 32-bit word; addition wraps. */
  type Word = n: nat | n < 0x1_0000_0000

  function Add(x: Word, y: Word): Word { (x + y) % 0x1_0000_0000 }

  /** The eight working variables, or the eight words of the hash value. */
  datatype Hash = Hash(a: Word, b: Word, c: Word, d: Word, e: Word, f: Word, g: Word, h: Word)

  /** Section 5.3.3. */
  const H0: Hash := Hash(0x6a09_e667, 0xbb67_ae85, 0x3c6e_f372, 0xa54f_f53a,
                         0x510e_527f, 0x9b05_688c, 0x1f83_d9ab, 0x5be0_cd19)

  /** Section 4.2.2. */
  function Constant(t: nat): Word {
    if t < 16 then Constant0(t) else if t < 32 then Constant16(t)
    else if t < 48 then Constant32(t) else Constant48(t)
  }

  function Constant0(t: nat): Word {
    match t
    case 0 => 0x428a_2f98 case 1 => 0x7137_4491 case 2 => 0xb5c0_fbcf case 3 => 0xe9b5_dba5
    case 4 => 0x3956_c25b case 5 => 0x59f1_11f1 case 6 => 0x923f_82a4 case 7 => 0xab1c_5ed5
    case 8 => 0xd807_aa98 case 9 => 0x1283_5b01 case 10 => 0x2431_85be case 11 => 0x550c_7dc3
    case 12 => 0x72be_5d74 case 13 => 0x80de_b1fe case 14 => 0x9bdc_06a7 case 15 => 0xc19b_f174
    case _ => 0
  }

  function Constant16(t: nat): Word {
    match t
    case 16 => 0xe49b_69c1 case 17 => 0xefbe_4786 case 18 => 0x0fc1_9dc6 case 19 => 0x240c_a1cc
    case 20 => 0x2de9_2c6f case 21 => 0x4a74_84aa case 22 => 0x5cb0_a9dc case 23 => 0x76f9_88da
    case 24 => 0x983e_5152 case 25 => 0xa831_c66d case 26 => 0xb003_27c8 case 27 => 0xbf59_7fc7
    case 28 => 0xc6e0_0bf3 case 29 => 0xd5a7_9147 case 30 => 0x06ca_6351 case 31 => 0x1429_2967
    case _ => 0
  }

  function Constant32(t: nat): Word {
    match t
    case 32 => 0x27b7_0a85 case 33 => 0x2e1b_2138 case 34 => 0x4d2c_6dfc case 35 => 0x5338_0d13
    case 36 => 0x650a_7354 case 37 => 0x766a_0abb case 38 => 0x81c2_c92e case 39 => 0x9272_2c85
    case 40 => 0xa2bf_e8a1 case 41 => 0xa81a_664b case 42 => 0xc24b_8b70 case 43 => 0xc76c_51a3
    case 44 => 0xd192_e819 case 45 => 0xd699_0624 case 46 => 0xf40e_3585 case 47 => 0x106a_a070
    case _ => 0
  }

  function Constant48(t: nat): Word {
    match t
    case 48 => 0x19a4_c116 case 49 => 0x1e37_6c08 case 50 => 0x2748_774c case 51 => 0x34b0_bcb5
    case 52 => 0x391c_0cb3 case 53 => 0x4ed8_aa4a case 54 => 0x5b9c_ca4f case 55 => 0x682e_6ff3
    case 56 => 0x748f_82ee case 57 => 0x78a5_636f case 58 => 0x84c8_7814 case 59 => 0x8cc7_0208
    case 60 => 0x90be_fffa case 61 => 0xa450_6ceb case 62 => 0xbef9_a3f7 case 63 => 0xc671_78f2
    case _ => 0
  }

  // ---- section 4.1.2 ------------------------------------------------------

  function Bits(x: Word): bv32 { x as bv32 }

  function ChBits(x: bv32, y: bv32, z: bv32): bv32 { (x & y) ^ (!x & z) }

  function MajBits(x: bv32, y: bv32, z: bv32): bv32 { (x & y) ^ (x & z) ^ (y & z) }

  function BigSigma0Bits(x: bv32): bv32 { x.RotateRight(2) ^ x.RotateRight(13) ^ x.RotateRight(22) }

  function BigSigma1Bits(x: bv32): bv32 { x.RotateRight(6) ^ x.RotateRight(11) ^ x.RotateRight(25) }

  function SmallSigma0Bits(x: bv32): bv32 { x.RotateRight(7) ^ x.RotateRight(18) ^ (x >> 3) }

  function SmallSigma1Bits(x: bv32): bv32 { x.RotateRight(17) ^ x.RotateRight(19) ^ (x >> 10) }

  function Ch(x: Word, y: Word, z: Word): Word { ChBits(Bits(x), Bits(y), Bits(z)) as nat }

  function Maj(x: Word, y: Word, z: Word): Word { MajBits(Bits(x), Bits(y), Bits(z)) as nat }

  function BigSigma0(x: Word): Word { BigSigma0Bits(Bits(x)) as nat }

  function BigSigma1(x: Word): Word { BigSigma1Bits(Bits(x)) as nat }

  function SmallSigma0(x: Word): Word { SmallSigma0Bits(Bits(x)) as nat }

  function SmallSigma1(x: Word): Word { SmallSigma1Bits(Bits(x)) as nat }

  /** The six functions and the 64 constants a compression uses. */
  datatype Suite = Suite(
    ch: (Word, Word, Word) -> Word, maj: (Word, Word, Word) -> Word,
    big0: Word -> Word, big1: Word -> Word, small0: Word -> Word, small1: Word -> Word,
    k: nat -> Word)

  const SHA_256: Suite := Suite(Ch, Maj, BigSigma0, BigSigma1, SmallSigma0, SmallSigma1, Constant)

  // ---- section 5: padding and parsing -------------------------------------

  /** The least number of zero bytes that leaves room for the length: section
      5.1.1 in bytes. */
  function Gap(n: nat): (z: nat)
    ensures z < 64 && (n + 1 + z) % 64 == 56
  {
    (119 - n % 64) % 64
  }

  lemma EightMore(n: nat)
    requires n % 64 == 56
    ensures (n + 8) % 64 == 0
  {
  }

  function Padded(data: seq<Byte>): (m: seq<Byte>)
    ensures |m| % 64 == 0
  {
    EightMore(|data| + 1 + Gap(|data|));
    Filled(data, Gap(|data|)) + BigEndian(8 * |data|, 8)
  }

  /** Word i of a 64-byte block, big-endian: section 5.2.1. */
  function WordAt(block: seq<Byte>, i: nat): Word
    requires |block| == 64 && i < 16
  {
    var b0: int, b1: int, b2: int, b3: int := block[4 * i], block[4 * i + 1], block[4 * i + 2], block[4 * i + 3];
    b0 * 0x1000000 + b1 * 0x10000 + b2 * 0x100 + b3
  }

  // ---- section 6.2.2 ------------------------------------------------------

  /** Step 1: the message schedule. */
  function Schedule(u: Suite, block: seq<Byte>, t: nat): Word
    requires |block| == 64
  {
    if t < 16 then WordAt(block, t)
    else Add(Add(Add(u.small1(Schedule(u, block, t - 2)), Schedule(u, block, t - 7)),
                 u.small0(Schedule(u, block, t - 15))),
             Schedule(u, block, t - 16))
  }

  /** Step 3, once. */
  function Round(u: Suite, v: Hash, k: Word, w: Word): Hash {
    var t1 := Add(Add(Add(Add(v.h, u.big1(v.e)), u.ch(v.e, v.f, v.g)), k), w);
    var t2 := Add(u.big0(v.a), u.maj(v.a, v.b, v.c));
    Hash(Add(t1, t2), v.a, v.b, v.c, Add(v.d, t1), v.e, v.f, v.g)
  }

  /** Step 3, t times. */
  function Rounds(u: Suite, block: seq<Byte>, v: Hash, t: nat): Hash
    requires |block| == 64
  {
    if t == 0 then v else Round(u, Rounds(u, block, v, t - 1), u.k(t - 1), Schedule(u, block, t - 1))
  }

  /** Step 4. */
  function Plus(x: Hash, y: Hash): Hash {
    Hash(Add(x.a, y.a), Add(x.b, y.b), Add(x.c, y.c), Add(x.d, y.d),
         Add(x.e, y.e), Add(x.f, y.f), Add(x.g, y.g), Add(x.h, y.h))
  }

  function Compress(u: Suite, block: seq<Byte>, h: Hash): Hash
    requires |block| == 64
  {
    Plus(h, Rounds(u, block, h, 64))
  }

  /** Block n of a padded message. */
  function Block(m: seq<Byte>, n: nat): (b: seq<Byte>)
    requires 64 * (n + 1) <= |m|
    ensures |b| == 64
  {
    m[64 * n..64 * (n + 1)]
  }

  /** The hash value after the first n blocks. */
  function Iterate(u: Suite, m: seq<Byte>, h0: Hash, n: nat): Hash
    requires 64 * n <= |m|
  {
    if n == 0 then h0 else Compress(u, Block(m, n - 1), Iterate(u, m, h0, n - 1))
  }

  lemma IterateStep(u: Suite, m: seq<Byte>, h0: Hash, n: nat)
    requires 64 * (n + 1) <= |m|
    ensures Iterate(u, m, h0, n + 1) == Compress(u, Block(m, n), Iterate(u, m, h0, n))
  {
  }

  function HashBytes(h: Hash): (r: seq<Byte>)
    ensures |r| == 32
  {
    BigEndian(h.a, 4) + BigEndian(h.b, 4) + BigEndian(h.c, 4) + BigEndian(h.d, 4)
    + BigEndian(h.e, 4) + BigEndian(h.f, 4) + BigEndian(h.g, 4) + BigEndian(h.h, 4)
  }

  function Sha(u: Suite, data: seq<Byte>): (r: seq<Byte>)
    ensures |r| == 32
  {
    var m := Padded(data);
    HashBytes(Iterate(u, m, H0, |m| / 64))
  }

  // ---- the implementation -------------------------------------------------

  /** Lines 99-105: push bytes until the length fits. */
  method Pad(data: seq<Byte>) returns (msg: seq<Byte>)
    ensures msg == Padded(data)
  {
    msg := data + [0x80];
    ghost var zeros: nat := 0;
    while |msg| % 64 != 56
      invariant zeros <= Gap(|data|)
      invariant msg == Filled(data, zeros)
      decreases Gap(|data|) - zeros
    {
      FilledStep(data, zeros);
      msg := msg + [0];
      zeros := zeros + 1;
    }
    GapLeast(data, zeros);
    msg := msg + BigEndian(8 * |data|, 8);
  }

  function Filled(data: seq<Byte>, zeros: nat): (r: seq<Byte>)
    ensures |r| == |data| + 1 + zeros
  {
    data + [0x80] + Repeat(0, zeros)
  }

  lemma FilledStep(data: seq<Byte>, zeros: nat)
    ensures Filled(data, zeros) + [0] == Filled(data, zeros + 1)
  {
  }

  lemma GapLeast(data: seq<Byte>, zeros: nat)
    requires zeros <= Gap(|data|) && (|data| + 1 + zeros) % 64 == 56
    ensures zeros == Gap(|data|)
  {
  }

  /** Lines 108-120. */
  method Expand(u: Suite, block: seq<Byte>) returns (w: array<Word>)
    requires |block| == 64
    ensures fresh(w) && w.Length == 64
    ensures forall t :: 0 <= t < 64 ==> w[t] == Schedule(u, block, t)
  {
    w := new Word[64];
    for i := 0 to 16
      invariant forall t :: 0 <= t < i ==> w[t] == Schedule(u, block, t)
    {
      w[i] := WordAt(block, i);
    }
    for i := 16 to 64
      invariant forall t :: 0 <= t < i ==> w[t] == Schedule(u, block, t)
    {
      var s0 := u.small0(w[i - 15]);
      var s1 := u.small1(w[i - 2]);
      AddReorders(w[i - 16], s0, w[i - 7], s1);
      w[i] := Add(Add(Add(w[i - 16], s0), w[i - 7]), s1);
    }
  }

  /** The code adds the schedule's four terms in another order. */
  lemma AddReorders(a: Word, b: Word, c: Word, d: Word)
    ensures Add(Add(Add(a, b), c), d) == Add(Add(Add(d, c), b), a)
  {
    SumOfFour(a, b, c, d);
    SumOfFour(d, c, b, a);
    assert a + b + c + d == d + c + b + a;
  }

  lemma SumOfFour(a: Word, b: Word, c: Word, d: Word)
    ensures Add(Add(Add(a, b), c), d) == (a + b + c + d) % 0x1_0000_0000
  {
    AddTwice(a + b, c);
    AddTwice(a + b + c, d);
  }

  lemma AddTwice(x: nat, y: nat)
    ensures (x % 0x1_0000_0000 + y) % 0x1_0000_0000 == (x + y) % 0x1_0000_0000
  {
    var q := x / 0x1_0000_0000;
    assert x + y - q * 0x1_0000_0000 == x % 0x1_0000_0000 + y;
  }

  /** Lines 122-160. */
  method CompressBlock(u: Suite, block: seq<Byte>, h: Hash) returns (r: Hash)
    requires |block| == 64
    ensures r == Compress(u, block, h)
  {
    var w := Expand(u, block);
    var a, b, c, d, e, f, g, hh := h.a, h.b, h.c, h.d, h.e, h.f, h.g, h.h;
    for i := 0 to 64
      invariant Hash(a, b, c, d, e, f, g, hh) == Rounds(u, block, h, i)
    {
      var t1 := Add(Add(Add(Add(hh, u.big1(e)), u.ch(e, f, g)), u.k(i)), w[i]);
      var t2 := Add(u.big0(a), u.maj(a, b, c));
      hh := g;
      g := f;
      f := e;
      e := Add(d, t1);
      d := c;
      c := b;
      b := a;
      a := Add(t1, t2);
    }
    r := Hash(Add(h.a, a), Add(h.b, b), Add(h.c, c), Add(h.d, d),
              Add(h.e, e), Add(h.f, f), Add(h.g, g), Add(h.h, hh));
  }

  /** The loop of lines 107-161. */
  method HashBlocks(u: Suite, msg: seq<Byte>, h0: Hash) returns (h: Hash)
    ensures h == Iterate(u, msg, h0, |msg| / 64)
  {
    var blocks: nat := |msg| / 64;
    h := h0;
    for n := 0 to blocks
      invariant h == Iterate(u, msg, h0, n)
    {
      h := CompressBlock(u, Block(msg, n), h);
      IterateStep(u, msg, h0, n);
    }
  }

  /** `digest`, lines 94-168. */
  method Digest(u: Suite, data: seq<Byte>) returns (out: seq<Byte>)
    ensures out == Sha(u, data)
  {
    var msg := Pad(data);
    var h := HashBlocks(u, msg, H0);
    out := HashBytes(h);
  }

  // ---- what the padding and the hex form keep -----------------------------

  /** Below 2^61 bytes no two messages pad to the same blocks. */
  lemma PaddingInjective(x: seq<Byte>, y: seq<Byte>)
    requires |x| < 0x2000_0000_0000_0000 && |y| < 0x2000_0000_0000_0000
    requires Padded(x) == Padded(y)
    ensures x == y
  {
    var m, n := Padded(x), |Padded(x)| - 8;
    assert m[n..] == BigEndian(8 * |x|, 8) && m[n..] == BigEndian(8 * |y|, 8);
    EightBytes();
    BigEndianInjective(8 * |x|, 8 * |y|, 8);
    assert m[..|x|] == x && m[..|y|] == y;
  }

  function HexDigit(n: nat): char
    requires n < 16
  {
    if n < 10 then '0' + n as char else 'a' + (n - 10) as char
  }

  /** `hex_digest`'s formatting, lines 171-178. */
  function Hex(bytes: seq<Byte>): (s: string)
    ensures |s| == 2 * |bytes|
  {
    if bytes == [] then ""
    else Hex(bytes[..|bytes| - 1]) + [HexDigit(bytes[|bytes| - 1] / 16), HexDigit(bytes[|bytes| - 1] % 16)]
  }

  lemma {:induction false} HexDigitsOnly(bytes: seq<Byte>)
    ensures forall c <- Hex(bytes) :: '0' <= c <= '9' || 'a' <= c <= 'f'
  {
    if bytes != [] {
      HexDigitsOnly(bytes[..|bytes| - 1]);
    }
  }

  lemma {:induction false} HexInjective(x: seq<Byte>, y: seq<Byte>)
    requires Hex(x) == Hex(y)
    ensures x == y
  {
    assert |x| == |y|;
    if x != [] {
      var n := 2 * |x|;
      var x', y' := x[..|x| - 1], y[..|y| - 1];
      assert Hex(x)[..n - 2] == Hex(x') && Hex(y)[..n - 2] == Hex(y');
      assert Hex(x)[n - 2] == Hex(y)[n - 2] && Hex(x)[n - 1] == Hex(y)[n - 1];
      HexInjective(x', y');
      assert x == x' + [x[|x| - 1]] && y == y' + [y[|y| - 1]];
    }
  }

  /** The loop of lines 174-176. */
  method ToHex(bytes: seq<Byte>) returns (s: string)
    ensures s == Hex(bytes)
  {
    s := "";
    for i := 0 to |bytes|
      invariant s == Hex(bytes[..i])
    {
      assert bytes[..i + 1][..i] == bytes[..i];
      s := s + [HexDigit(bytes[i] / 16), HexDigit(bytes[i] % 16)];
    }
    assert bytes[..|bytes|] == bytes;
  }

  /** `hex_digest`: always 64 lowercase hex characters. */
  method HexDigest(data: seq<Byte>) returns (s: string)
    ensures s == Hex(Sha(SHA_256, data)) && |s| == 64
    ensures forall c <- s :: '0' <= c <= '9' || 'a' <= c <= 'f'
  {
    var bytes := Digest(SHA_256, data);
    s := ToHex(bytes);
    HexDigitsOnly(bytes);
  }
}
