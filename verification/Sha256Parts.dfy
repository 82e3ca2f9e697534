/** What the parts of SHA-256 mean: how bytes are read as words and written back,
    what the six functions do to each bit, and where the constants come from. */
module Sha256Parts {
  import opened Common
  import opened Sha256

  // ---- bytes and words ----------------------------------------------------

  /** A word is read big-endian: writing it back gives its four bytes. */
  lemma WordReadsBytes(block: seq<Byte>, i: nat)
    requires |block| == 64 && i < 16
    ensures BigEndian(WordAt(block, i), 4) == block[4 * i..4 * i + 4]
  {
    var b0: int, b1: int, b2: int, b3: int := block[4 * i], block[4 * i + 1], block[4 * i + 2], block[4 * i + 3];
    FourBytes(b0, b1, b2, b3);
    assert block[4 * i..4 * i + 4] == [b0, b1, b2, b3];
  }

  lemma FourBytes(b0: Byte, b1: Byte, b2: Byte, b3: Byte)
    ensures BigEndian(b0 as int * 0x1000000 + b1 as int * 0x10000 + b2 as int * 0x100 + b3 as int, 4) ==
              [b0, b1, b2, b3]
  {
    var n3 := b0 as int * 0x1000000 + b1 as int * 0x10000 + b2 as int * 0x100 + b3 as int;
    var n2 := b0 as int * 0x10000 + b1 as int * 0x100 + b2 as int;
    var n1 := b0 as int * 0x100 + b1 as int;
    assert n3 / 256 == n2 && n2 / 256 == n1 && n1 / 256 == b0 && n1 % 256 == b1;
    assert BigEndian(b0, 1) == [b0];
    assert BigEndian(n1, 2) == [b0, b1];
    assert BigEndian(n2, 3) == [b0, b1, b2];
  }

  /** The number a byte string stands for, most significant byte first. */
  function Number(bytes: seq<Byte>): nat {
    if bytes == [] then 0 else 256 * Number(bytes[..|bytes| - 1]) + bytes[|bytes| - 1]
  }

  lemma {:induction false} NumberReads(n: nat, width: nat)
    requires n < Range(width)
    ensures Number(BigEndian(n, width)) == n
  {
    if width > 0 {
      var bytes := BigEndian(n, width);
      assert bytes[..width - 1] == BigEndian(n / 256, width - 1);
      NumberReads(n / 256, width - 1);
    }
  }

  /** The eight words of a hash value, read back from its 32 bytes. */
  lemma HashReadsBack(h: Hash)
    ensures var r := HashBytes(h);
            && Number(r[0..4]) == h.a && Number(r[4..8]) == h.b && Number(r[8..12]) == h.c && Number(r[12..16]) == h.d
            && Number(r[16..20]) == h.e && Number(r[20..24]) == h.f && Number(r[24..28]) == h.g
            && Number(r[28..32]) == h.h
  {
    var r := HashBytes(h);
    assert Range(4) == 0x1_0000_0000;
    NumberReads(h.a, 4);
    NumberReads(h.b, 4);
    NumberReads(h.c, 4);
    NumberReads(h.d, 4);
    NumberReads(h.e, 4);
    NumberReads(h.f, 4);
    NumberReads(h.g, 4);
    NumberReads(h.h, 4);
    HashPieces(h);
  }

  lemma HashPieces(h: Hash)
    ensures var r := HashBytes(h);
            && r[0..4] == BigEndian(h.a, 4) && r[4..8] == BigEndian(h.b, 4) && r[8..12] == BigEndian(h.c, 4)
            && r[12..16] == BigEndian(h.d, 4) && r[16..20] == BigEndian(h.e, 4) && r[20..24] == BigEndian(h.f, 4)
            && r[24..28] == BigEndian(h.g, 4) && r[28..32] == BigEndian(h.h, 4)
  {
  }

  /** The blocks, one after another, are the message. */
  function Blocks(m: seq<Byte>, n: nat): seq<Byte>
    requires 64 * n <= |m|
  {
    if n == 0 then [] else Blocks(m, n - 1) + Block(m, n - 1)
  }

  lemma {:induction false} BlocksJoin(m: seq<Byte>, n: nat)
    requires 64 * n <= |m|
    ensures Blocks(m, n) == m[..64 * n]
  {
    if n > 0 {
      BlocksJoin(m, n - 1);
      assert m[..64 * n] == m[..64 * (n - 1)] + m[64 * (n - 1)..64 * n];
    }
  }

  /** A hex digit's value. */
  function Value(c: char): nat {
    if '0' <= c <= '9' then (c - '0') as nat else if 'a' <= c <= 'f' then 10 + (c - 'a') as nat else 0
  }

  /** Each byte is two digits, the high one first. */
  lemma {:induction false} HexReads(bytes: seq<Byte>, i: nat)
    requires i < |bytes|
    ensures bytes[i] == 16 * Value(Hex(bytes)[2 * i]) + Value(Hex(bytes)[2 * i + 1])
  {
    var n := |bytes| - 1;
    if i < n {
      HexReads(bytes[..n], i);
      assert Hex(bytes)[..2 * n] == Hex(bytes[..n]);
      assert Hex(bytes)[2 * i] == Hex(bytes)[..2 * n][2 * i] && Hex(bytes)[2 * i + 1] == Hex(bytes)[..2 * n][2 * i + 1];
    } else {
      DigitReads(bytes[n] / 16);
      DigitReads(bytes[n] % 16);
    }
  }

  lemma DigitReads(n: nat)
    requires n < 16
    ensures Value(HexDigit(n)) == n
  {
  }

  // ---- bits ---------------------------------------------------------------

  /** Bit i, counted from the least significant; positions wrap at 32. */
  predicate Bit(b: bv32, i: bv5) { (b >> i) & 1 == 1 }

  /** An odd number of the three. */
  predicate Odd(p: bool, q: bool, r: bool) { (p != q) != r }

  lemma RoundTrip(b: bv32)
    ensures Bits(b as nat) == b
  {
  }

  /** Each function on words is its function on their bits. */
  lemma WordsAreBits(x: Word, y: Word, z: Word)
    ensures Bits(Ch(x, y, z)) == ChBits(Bits(x), Bits(y), Bits(z))
    ensures Bits(Maj(x, y, z)) == MajBits(Bits(x), Bits(y), Bits(z))
    ensures Bits(BigSigma0(x)) == BigSigma0Bits(Bits(x)) && Bits(BigSigma1(x)) == BigSigma1Bits(Bits(x))
    ensures Bits(SmallSigma0(x)) == SmallSigma0Bits(Bits(x)) && Bits(SmallSigma1(x)) == SmallSigma1Bits(Bits(x))
  {
    RoundTrip(ChBits(Bits(x), Bits(y), Bits(z)));
    RoundTrip(MajBits(Bits(x), Bits(y), Bits(z)));
    RoundTrip(BigSigma0Bits(Bits(x)));
    RoundTrip(BigSigma1Bits(Bits(x)));
    RoundTrip(SmallSigma0Bits(Bits(x)));
    RoundTrip(SmallSigma1Bits(Bits(x)));
  }

  /** Ch chooses: it is y where x is set, and z where it is not. */
  lemma ChChooses(x: bv32, y: bv32, z: bv32)
    ensures ChBits(x, y, z) & x == y & x
    ensures ChBits(x, y, z) & !x == z & !x
  {
  }

  /** Maj is the majority: where x and y agree it is what they are, elsewhere z. */
  lemma MajIsMajority(x: bv32, y: bv32, z: bv32)
    ensures MajBits(x, y, z) & !(x ^ y) == x & !(x ^ y)
    ensures MajBits(x, y, z) & (x ^ y) == z & (x ^ y)
  {
  }

  lemma XorBit(a: bv32, b: bv32, c: bv32, i: bv5)
    ensures Bit(a ^ b ^ c, i) <==> Odd(Bit(a, i), Bit(b, i), Bit(c, i))
  {
  }

  lemma Rotated2(b: bv32, i: bv5)
    ensures Bit(b.RotateRight(2), i) <==> Bit(b, i + 2)
  {
  }

  lemma Rotated13(b: bv32, i: bv5)
    ensures Bit(b.RotateRight(13), i) <==> Bit(b, i + 13)
  {
  }

  lemma Rotated22(b: bv32, i: bv5)
    ensures Bit(b.RotateRight(22), i) <==> Bit(b, i + 22)
  {
  }

  lemma Rotated6(b: bv32, i: bv5)
    ensures Bit(b.RotateRight(6), i) <==> Bit(b, i + 6)
  {
  }

  lemma Rotated11(b: bv32, i: bv5)
    ensures Bit(b.RotateRight(11), i) <==> Bit(b, i + 11)
  {
  }

  lemma Rotated25(b: bv32, i: bv5)
    ensures Bit(b.RotateRight(25), i) <==> Bit(b, i + 25)
  {
  }

  lemma Rotated7(b: bv32, i: bv5)
    ensures Bit(b.RotateRight(7), i) <==> Bit(b, i + 7)
  {
  }

  lemma Rotated18(b: bv32, i: bv5)
    ensures Bit(b.RotateRight(18), i) <==> Bit(b, i + 18)
  {
  }

  lemma Rotated17(b: bv32, i: bv5)
    ensures Bit(b.RotateRight(17), i) <==> Bit(b, i + 17)
  {
  }

  lemma Rotated19(b: bv32, i: bv5)
    ensures Bit(b.RotateRight(19), i) <==> Bit(b, i + 19)
  {
  }

  lemma Shifted3(b: bv32, i: bv5)
    ensures Bit(b >> 3, i) <==> i < 29 && Bit(b, i + 3)
  {
  }

  lemma Shifted10(b: bv32, i: bv5)
    ensures Bit(b >> 10, i) <==> i < 22 && Bit(b, i + 10)
  {
  }

  /** The large sigmas: the sum of three bits further left, around the end. */
  lemma BigSigma0Sums(b: bv32, i: bv5)
    ensures Bit(BigSigma0Bits(b), i) <==> Odd(Bit(b, i + 2), Bit(b, i + 13), Bit(b, i + 22))
  {
    XorBit(b.RotateRight(2), b.RotateRight(13), b.RotateRight(22), i);
    Rotated2(b, i);
    Rotated13(b, i);
    Rotated22(b, i);
  }

  lemma BigSigma1Sums(b: bv32, i: bv5)
    ensures Bit(BigSigma1Bits(b), i) <==> Odd(Bit(b, i + 6), Bit(b, i + 11), Bit(b, i + 25))
  {
    XorBit(b.RotateRight(6), b.RotateRight(11), b.RotateRight(25), i);
    Rotated6(b, i);
    Rotated11(b, i);
    Rotated25(b, i);
  }

  /** The small sigmas: two around the end, one that is lost there. */
  lemma SmallSigma0Sums(b: bv32, i: bv5)
    ensures Bit(SmallSigma0Bits(b), i) <==> Odd(Bit(b, i + 7), Bit(b, i + 18), i < 29 && Bit(b, i + 3))
  {
    XorBit(b.RotateRight(7), b.RotateRight(18), b >> 3, i);
    Rotated7(b, i);
    Rotated18(b, i);
    Shifted3(b, i);
  }

  lemma SmallSigma1Sums(b: bv32, i: bv5)
    ensures Bit(SmallSigma1Bits(b), i) <==> Odd(Bit(b, i + 17), Bit(b, i + 19), i < 22 && Bit(b, i + 10))
  {
    XorBit(b.RotateRight(17), b.RotateRight(19), b >> 10, i);
    Rotated17(b, i);
    Rotated19(b, i);
    Shifted10(b, i);
  }
}
