/** Where the constants of SHA-256 come from: the fractional bits of the roots of
    the first primes, as sections 4.2.2 and 5.3.3 of FIPS 180-4 say. */
module Sha256Constants {
  import opened Sha256

  // ---- the first 64 primes ------------------------------------------------

  /** Not a product of two smaller numbers. */
  ghost predicate Prime(n: nat) {
    n >= 2 && forall a: nat, b: nat :: a >= 2 && b >= 2 ==> a * b != n
  }

  function Nth(t: nat): nat {
    if t < 16 then Nth0(t) else if t < 32 then Nth16(t) else if t < 48 then Nth32(t) else Nth48(t)
  }

  function Nth0(t: nat): nat {
    match t
    case 0 => 2 case 1 => 3 case 2 => 5 case 3 => 7
    case 4 => 11 case 5 => 13 case 6 => 17 case 7 => 19
    case 8 => 23 case 9 => 29 case 10 => 31 case 11 => 37
    case 12 => 41 case 13 => 43 case 14 => 47 case 15 => 53
    case _ => 0
  }

  function Nth16(t: nat): nat {
    match t
    case 16 => 59 case 17 => 61 case 18 => 67 case 19 => 71
    case 20 => 73 case 21 => 79 case 22 => 83 case 23 => 89
    case 24 => 97 case 25 => 101 case 26 => 103 case 27 => 107
    case 28 => 109 case 29 => 113 case 30 => 127 case 31 => 131
    case _ => 0
  }

  function Nth32(t: nat): nat {
    match t
    case 32 => 137 case 33 => 139 case 34 => 149 case 35 => 151
    case 36 => 157 case 37 => 163 case 38 => 167 case 39 => 173
    case 40 => 179 case 41 => 181 case 42 => 191 case 43 => 193
    case 44 => 197 case 45 => 199 case 46 => 211 case 47 => 223
    case _ => 0
  }

  function Nth48(t: nat): nat {
    match t
    case 48 => 227 case 49 => 229 case 50 => 233 case 51 => 239
    case 52 => 241 case 53 => 251 case 54 => 257 case 55 => 263
    case 56 => 269 case 57 => 271 case 58 => 277 case 59 => 281
    case 60 => 283 case 61 => 293 case 62 => 307 case 63 => 311
    case _ => 0
  }

  /** No prime up to 17 divides it, but for itself. */
  predicate Undivided(n: nat) {
    && n >= 2 && (n % 2 != 0 || n == 2) && (n % 3 != 0 || n == 3) && (n % 5 != 0 || n == 5) && (n % 7 != 0 || n == 7)
    && (n % 11 != 0 || n == 11) && (n % 13 != 0 || n == 13) && (n % 17 != 0 || n == 17)
  }

  /** Below 18 * 18 that decides. */
  lemma PrimeIff(n: nat)
    requires n < 324
    ensures Prime(n) <==> Undivided(n)
  {
    if Undivided(n) {
      forall a: nat, b: nat | a >= 2 && b >= 2 ensures a * b != n {
        if a <= b {
          NoFactor(n, a, b);
        } else {
          NoFactor(n, b, a);
        }
      }
    } else if n >= 2 {
      var d := if n % 2 == 0 && n != 2 then 2 else if n % 3 == 0 && n != 3 then 3 else if n % 5 == 0 && n != 5 then 5
               else if n % 7 == 0 && n != 7 then 7 else if n % 11 == 0 && n != 11 then 11
               else if n % 13 == 0 && n != 13 then 13 else 17;
      assert d * (n / d) == n && n / d >= 2;
    }
  }

  lemma NoFactor(n: nat, a: nat, b: nat)
    requires Undivided(n) && n < 324 && 2 <= a <= b
    ensures a * b != n
  {
    if a >= 18 {
      Larger(a, b);
    } else {
      SmallFactor(n, a, b);
    }
  }

  lemma Larger(a: nat, b: nat)
    requires 18 <= a <= b
    ensures a * b >= 18 * 18
  {
    assert (a - 18) * b >= 0;
  }

  lemma SmallFactor(n: nat, a: nat, b: nat)
    requires Undivided(n) && 2 <= a < 18 && a <= b
    ensures a * b != n
  {
    var d := if a % 2 == 0 then 2 else if a % 3 == 0 then 3 else if a % 5 == 0 then 5 else if a % 7 == 0 then 7 else a;
    var c := a / d;
    assert a == d * c && c >= 1;
    Larger2(c, b);
    NotMultiple(n, d, c * b);
    assert d * (c * b) == a * b;
  }

  lemma Larger2(c: nat, b: nat)
    requires c >= 1 && b >= 2
    ensures c * b >= 2
  {
    assert (c - 1) * b >= 0;
  }

  lemma NotMultiple(n: nat, d: nat, k: nat)
    requires Undivided(n) && (d == 2 || d == 3 || d == 5 || d == 7 || d == 11 || d == 13 || d == 17) && k >= 2
    ensures d * k != n
  {
    Multiple(d, k);
    assert n % d != 0 || n == d;
  }

  lemma Multiple(a: nat, b: nat)
    requires a > 0
    ensures (a * b) % a == 0
  {
    var q, r := (a * b) / a, (a * b) % a;
    assert a * b == a * q + r;
    assert a * (b - q) == r;
    if b > q {
      Scaled(a, b - q);
    } else if b < q {
      Scaled(a, q - b);
    }
  }

  lemma Scaled(a: nat, k: int)
    requires k >= 1
    ensures a * k >= a
  {
  }

  // ---- the roots ----------------------------------------------------------

  const W: nat := 0x1_0000_0000

  function Square(x: nat): nat { x * x }

  function Cube(x: nat): nat { x * x * x }

  /** k is the first 32 bits after the point of the cube root of p, r before it. */
  predicate CubeRootBits(p: nat, r: nat, k: nat) {
    Cube(r * W + k) <= p * Cube(W) < Cube(r * W + k + 1)
  }

  predicate SquareRootBits(p: nat, r: nat, k: nat) {
    Square(r * W + k) <= p * Square(W) < Square(r * W + k + 1)
  }

  /** The whole part of the cube root, for the primes above. */
  function Whole(p: nat): nat {
    if p < 8 then 1 else if p < 27 then 2 else if p < 64 then 3 else if p < 125 then 4 else if p < 216 then 5 else 6
  }

  /** Constant t is the fractional part of the cube root of prime t. */
  ghost predicate Derived(t: nat) {
    CubeRootBits(Nth(t), Whole(Nth(t)), Constant(t))
  }

  lemma Derived0()
    ensures Derived(0) && Derived(1) && Derived(2) && Derived(3)
  {
  }

  lemma Derived4()
    ensures Derived(4) && Derived(5) && Derived(6) && Derived(7)
  {
  }

  lemma Derived8()
    ensures Derived(8) && Derived(9) && Derived(10) && Derived(11)
  {
  }

  lemma Derived12()
    ensures Derived(12) && Derived(13) && Derived(14) && Derived(15)
  {
  }

  lemma Derived16()
    ensures Derived(16) && Derived(17) && Derived(18) && Derived(19)
  {
  }

  lemma Derived20()
    ensures Derived(20) && Derived(21) && Derived(22) && Derived(23)
  {
  }

  lemma Derived24()
    ensures Derived(24) && Derived(25) && Derived(26) && Derived(27)
  {
  }

  lemma Derived28()
    ensures Derived(28) && Derived(29) && Derived(30) && Derived(31)
  {
  }

  lemma Derived32()
    ensures Derived(32) && Derived(33) && Derived(34) && Derived(35)
  {
  }

  lemma Derived36()
    ensures Derived(36) && Derived(37) && Derived(38) && Derived(39)
  {
  }

  lemma Derived40()
    ensures Derived(40) && Derived(41) && Derived(42) && Derived(43)
  {
  }

  lemma Derived44()
    ensures Derived(44) && Derived(45) && Derived(46) && Derived(47)
  {
  }

  lemma Derived48()
    ensures Derived(48) && Derived(49) && Derived(50) && Derived(51)
  {
  }

  lemma Derived52()
    ensures Derived(52) && Derived(53) && Derived(54) && Derived(55)
  {
  }

  lemma Derived56()
    ensures Derived(56) && Derived(57) && Derived(58) && Derived(59)
  {
  }

  lemma Derived60()
    ensures Derived(60) && Derived(61) && Derived(62) && Derived(63)
  {
  }

  lemma DerivedFrom0(t: nat)
    requires 0 <= t < 16
    ensures Derived(t)
  {
    if t < 4 {
      Derived0();
    } else if t < 8 {
      Derived4();
    } else if t < 12 {
      Derived8();
    } else if t < 16 {
      Derived12();
    }
  }

  lemma DerivedFrom16(t: nat)
    requires 16 <= t < 32
    ensures Derived(t)
  {
    if t < 20 {
      Derived16();
    } else if t < 24 {
      Derived20();
    } else if t < 28 {
      Derived24();
    } else if t < 32 {
      Derived28();
    }
  }

  lemma DerivedFrom32(t: nat)
    requires 32 <= t < 48
    ensures Derived(t)
  {
    if t < 36 {
      Derived32();
    } else if t < 40 {
      Derived36();
    } else if t < 44 {
      Derived40();
    } else if t < 48 {
      Derived44();
    }
  }

  lemma DerivedFrom48(t: nat)
    requires 48 <= t < 64
    ensures Derived(t)
  {
    if t < 52 {
      Derived48();
    } else if t < 56 {
      Derived52();
    } else if t < 60 {
      Derived56();
    } else if t < 64 {
      Derived60();
    }
  }

  /** Section 4.2.2: the first 32 bits of the fractional parts of the cube roots of
      the first 64 primes. */
  lemma ConstantsAreCubeRoots(t: nat)
    requires t < 64
    ensures Derived(t)
  {
    if t < 16 {
      DerivedFrom0(t);
    } else if t < 32 {
      DerivedFrom16(t);
    } else if t < 48 {
      DerivedFrom32(t);
    } else {
      DerivedFrom48(t);
    }
  }

  /** Section 5.3.3: the same bits of the square roots of the first eight. */
  lemma StartIsSquareRoots()
    ensures SquareRootBits(2, 1, H0.a) && SquareRootBits(3, 1, H0.b) && SquareRootBits(5, 2, H0.c)
    ensures SquareRootBits(7, 2, H0.d) && SquareRootBits(11, 3, H0.e) && SquareRootBits(13, 3, H0.f)
    ensures SquareRootBits(17, 4, H0.g) && SquareRootBits(19, 4, H0.h)
  {
  }

  // ---- the list is complete -----------------------------------------------

  /** Nothing between p and q passes. */
  ghost predicate NoneBetween(passes: nat -> bool, p: nat, q: nat) {
    forall n: nat :: p < n < q ==> !passes(n)
  }

  ghost predicate NoEven(passes: nat -> bool) {
    forall n: nat :: n > 2 && n % 2 == 0 ==> !passes(n)
  }

  lemma Gap2(passes: nat -> bool, p: nat)
    requires p % 2 == 1 && p >= 3 && NoEven(passes)
    ensures NoneBetween(passes, p, p + 2)
  {
    forall n: nat | p < n < p + 2 ensures !passes(n) {
      assert n % 2 == 0;
    }
  }

  lemma Gap4(passes: nat -> bool, p: nat)
    requires p % 2 == 1 && p >= 3 && NoEven(passes)
    requires !passes(p + 2)
    ensures NoneBetween(passes, p, p + 4)
  {
    forall n: nat | p < n < p + 4 ensures !passes(n) {
      assert n % 2 == 0 || n == p + 2;
    }
  }

  lemma Gap6(passes: nat -> bool, p: nat)
    requires p % 2 == 1 && p >= 3 && NoEven(passes)
    requires !passes(p + 2) && !passes(p + 4)
    ensures NoneBetween(passes, p, p + 6)
  {
    forall n: nat | p < n < p + 6 ensures !passes(n) {
      assert n % 2 == 0 || n == p + 2 || n == p + 4;
    }
  }

  lemma Gap8(passes: nat -> bool, p: nat)
    requires p % 2 == 1 && p >= 3 && NoEven(passes)
    requires !passes(p + 2) && !passes(p + 4) && !passes(p + 6)
    ensures NoneBetween(passes, p, p + 8)
  {
    forall n: nat | p < n < p + 8 ensures !passes(n) {
      assert n % 2 == 0 || n == p + 2 || n == p + 4 || n == p + 6;
    }
  }

  lemma Gap10(passes: nat -> bool, p: nat)
    requires p % 2 == 1 && p >= 3 && NoEven(passes)
    requires !passes(p + 2) && !passes(p + 4) && !passes(p + 6) && !passes(p + 8)
    ensures NoneBetween(passes, p, p + 10)
  {
    forall n: nat | p < n < p + 10 ensures !passes(n) {
      assert n % 2 == 0 || n == p + 2 || n == p + 4 || n == p + 6 || n == p + 8;
    }
  }

  lemma Gap12(passes: nat -> bool, p: nat)
    requires p % 2 == 1 && p >= 3 && NoEven(passes)
    requires !passes(p + 2) && !passes(p + 4) && !passes(p + 6) && !passes(p + 8) && !passes(p + 10)
    ensures NoneBetween(passes, p, p + 12)
  {
    forall n: nat | p < n < p + 12 ensures !passes(n) {
      assert n % 2 == 0 || n == p + 2 || n == p + 4 || n == p + 6 || n == p + 8 || n == p + 10;
    }
  }

  lemma Gap14(passes: nat -> bool, p: nat)
    requires p % 2 == 1 && p >= 3 && NoEven(passes)
    requires !passes(p + 2) && !passes(p + 4) && !passes(p + 6) && !passes(p + 8) && !passes(p + 10) && !passes(p + 12)
    ensures NoneBetween(passes, p, p + 14)
  {
    forall n: nat | p < n < p + 14 ensures !passes(n) {
      assert n % 2 == 0 || n == p + 2 || n == p + 4 || n == p + 6 || n == p + 8 || n == p + 10 || n == p + 12;
    }
  }

  /** Number t of the list, and the next one. */
  ghost predicate Listed(t: nat) {
    && Undivided(Nth(t)) && Undivided(Nth(t + 1)) && Nth(t) < Nth(t + 1) <= 311
    && NoneBetween(Undivided, Nth(t), Nth(t + 1))
  }

  lemma Listed0()
    requires NoEven(Undivided)
    ensures Listed(0) && Listed(1) && Listed(2) && Listed(3)
  {
    Gap2(Undivided, 3);
    Gap2(Undivided, 5);
    Gap4(Undivided, 7);
  }

  lemma Listed4()
    requires NoEven(Undivided)
    ensures Listed(4) && Listed(5) && Listed(6) && Listed(7)
  {
    Gap2(Undivided, 11);
    Gap4(Undivided, 13);
    Gap2(Undivided, 17);
    Gap4(Undivided, 19);
  }

  lemma Listed8()
    requires NoEven(Undivided)
    ensures Listed(8) && Listed(9) && Listed(10) && Listed(11)
  {
    Gap6(Undivided, 23);
    Gap2(Undivided, 29);
    Gap6(Undivided, 31);
    Gap4(Undivided, 37);
  }

  lemma Listed12()
    requires NoEven(Undivided)
    ensures Listed(12) && Listed(13) && Listed(14) && Listed(15)
  {
    Gap2(Undivided, 41);
    Gap4(Undivided, 43);
    Gap6(Undivided, 47);
    Gap6(Undivided, 53);
  }

  lemma Listed16()
    requires NoEven(Undivided)
    ensures Listed(16) && Listed(17) && Listed(18) && Listed(19)
  {
    Gap2(Undivided, 59);
    Gap6(Undivided, 61);
    Gap4(Undivided, 67);
    Gap2(Undivided, 71);
  }

  lemma Listed20()
    requires NoEven(Undivided)
    ensures Listed(20) && Listed(21) && Listed(22) && Listed(23)
  {
    Gap6(Undivided, 73);
    Gap4(Undivided, 79);
    Gap6(Undivided, 83);
    Gap8(Undivided, 89);
  }

  lemma Listed24()
    requires NoEven(Undivided)
    ensures Listed(24) && Listed(25) && Listed(26) && Listed(27)
  {
    Gap4(Undivided, 97);
    Gap2(Undivided, 101);
    Gap4(Undivided, 103);
    Gap2(Undivided, 107);
  }

  lemma Listed28()
    requires NoEven(Undivided)
    ensures Listed(28) && Listed(29) && Listed(30) && Listed(31)
  {
    Gap4(Undivided, 109);
    Gap14(Undivided, 113);
    Gap4(Undivided, 127);
    Gap6(Undivided, 131);
  }

  lemma Listed32()
    requires NoEven(Undivided)
    ensures Listed(32) && Listed(33) && Listed(34) && Listed(35)
  {
    Gap2(Undivided, 137);
    Gap10(Undivided, 139);
    Gap2(Undivided, 149);
    Gap6(Undivided, 151);
  }

  lemma Listed36()
    requires NoEven(Undivided)
    ensures Listed(36) && Listed(37) && Listed(38) && Listed(39)
  {
    Gap6(Undivided, 157);
    Gap4(Undivided, 163);
    Gap6(Undivided, 167);
    Gap6(Undivided, 173);
  }

  lemma Listed40()
    requires NoEven(Undivided)
    ensures Listed(40) && Listed(41) && Listed(42) && Listed(43)
  {
    Gap2(Undivided, 179);
    Gap10(Undivided, 181);
    Gap2(Undivided, 191);
    Gap4(Undivided, 193);
  }

  lemma Listed44()
    requires NoEven(Undivided)
    ensures Listed(44) && Listed(45) && Listed(46) && Listed(47)
  {
    Gap2(Undivided, 197);
    Gap12(Undivided, 199);
    Gap12(Undivided, 211);
    Gap4(Undivided, 223);
  }

  lemma Listed48()
    requires NoEven(Undivided)
    ensures Listed(48) && Listed(49) && Listed(50) && Listed(51)
  {
    Gap2(Undivided, 227);
    Gap4(Undivided, 229);
    Gap6(Undivided, 233);
    Gap2(Undivided, 239);
  }

  lemma Listed52()
    requires NoEven(Undivided)
    ensures Listed(52) && Listed(53) && Listed(54) && Listed(55)
  {
    Gap10(Undivided, 241);
    Gap6(Undivided, 251);
    Gap6(Undivided, 257);
    Gap6(Undivided, 263);
  }

  lemma Listed56()
    requires NoEven(Undivided)
    ensures Listed(56) && Listed(57) && Listed(58) && Listed(59)
  {
    Gap2(Undivided, 269);
    Gap6(Undivided, 271);
    Gap4(Undivided, 277);
    Gap2(Undivided, 281);
  }

  lemma Listed60()
    requires NoEven(Undivided)
    ensures Listed(60) && Listed(61) && Listed(62)
  {
    Gap10(Undivided, 283);
    Gap14(Undivided, 293);
    Gap4(Undivided, 307);
  }

  lemma ListedFrom0(t: nat)
    requires 0 <= t < 16 && NoEven(Undivided)
    ensures Listed(t)
  {
    if t < 4 {
      Listed0();
    } else if t < 8 {
      Listed4();
    } else if t < 12 {
      Listed8();
    } else if t < 16 {
      Listed12();
    }
  }

  lemma ListedFrom16(t: nat)
    requires 16 <= t < 32 && NoEven(Undivided)
    ensures Listed(t)
  {
    if t < 20 {
      Listed16();
    } else if t < 24 {
      Listed20();
    } else if t < 28 {
      Listed24();
    } else if t < 32 {
      Listed28();
    }
  }

  lemma ListedFrom32(t: nat)
    requires 32 <= t < 48 && NoEven(Undivided)
    ensures Listed(t)
  {
    if t < 36 {
      Listed32();
    } else if t < 40 {
      Listed36();
    } else if t < 44 {
      Listed40();
    } else if t < 48 {
      Listed44();
    }
  }

  lemma ListedFrom48(t: nat)
    requires 48 <= t < 63 && NoEven(Undivided)
    ensures Listed(t)
  {
    if t < 52 {
      Listed48();
    } else if t < 56 {
      Listed52();
    } else if t < 60 {
      Listed56();
    } else if t < 64 {
      Listed60();
    }
  }

  lemma ListedAt(t: nat)
    requires t < 63
    ensures Listed(t)
  {
    forall n: nat | n > 2 && n % 2 == 0 ensures !Undivided(n) {}
    if t < 16 {
      ListedFrom0(t);
    } else if t < 32 {
      ListedFrom16(t);
    } else if t < 48 {
      ListedFrom32(t);
    } else {
      ListedFrom48(t);
    }
  }

  /** The list holds exactly the primes up to 311, in order. */
  lemma FirstPrimes(n: nat)
    requires n <= 311
    ensures Prime(n) <==> exists t: nat :: t < 64 && Nth(t) == n
  {
    PrimeIff(n);
    assert Nth(0) == 2;
    if n >= 2 {
      var t := 0;
      while t < 63 && Nth(t + 1) <= n
        invariant t < 64 && Nth(t) <= n
      {
        t := t + 1;
      }
      assert Nth(63) == 311;
      ListedBelow(n, t);
    } else {
      forall t: nat | t < 64 ensures Nth(t) != n {
        if t < 63 {
          ListedAt(t);
        } else {
          assert Nth(63) == 311;
        }
      }
    }
  }

  lemma ListedBelow(n: nat, t: nat)
    requires 2 <= n <= 311 && t < 64 && Nth(t) <= n && (t == 63 || n < Nth(t + 1)) && (t == 63 ==> Nth(63) == n)
    ensures Undivided(n) <==> exists u: nat :: u < 64 && Nth(u) == n
  {
    if t < 63 {
      ListedAt(t);
    } else {
      ListedAt(62);
    }
    if u: nat :| u < 64 && Nth(u) == n {
      if u < 63 {
        ListedAt(u);
      } else {
        ListedAt(62);
      }
    }
  }
}
