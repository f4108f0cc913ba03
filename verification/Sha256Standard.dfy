/** What FIPS 180-4 says of the tables and functions that the code and the definition of the digest share:
    section 4.1.2 for the logical functions, section 4.2.2 for the round constants, section 5.3.3 for the
    initial state. */
module Sha256Standard {
  import opened Bits
  import opened Sha256

  // ---------------------------------------------------------------- the first primes

  ghost predicate IsPrime(p: nat) {
    p >= 2 && forall d :: 2 <= d < p ==> p % d != 0
  }

  ghost function PrimesBelow(n: nat): nat {
    if n == 0 then 0 else PrimesBelow(n - 1) + if IsPrime(n - 1) then 1 else 0
  }

  /** The prime with `i` smaller primes. */
  ghost predicate IsNthPrime(p: nat, i: nat) {
    IsPrime(p) && PrimesBelow(p) == i
  }

  /** No prime up to 17 divides the number properly, which decides below 19 * 19. */
  predicate Tested(n: nat) {
    && n >= 2 && (n == 2 || n % 2 != 0) && (n == 3 || n % 3 != 0) && (n == 5 || n % 5 != 0)
    && (n == 7 || n % 7 != 0) && (n == 11 || n % 11 != 0) && (n == 13 || n % 13 != 0) && (n == 17 || n % 17 != 0)
  }

  lemma FactorDivides(n: nat, d: nat, f: nat)
    requires d > 0 && f > 0 && n % d == 0 && d % f == 0
    ensures n % f == 0
  {
    var q, g := n / d, d / f;
    assert n == d * q && d == f * g;
    assert n == f * (g * q);
    DivModUnique(n, f, g * q, 0);
  }

  lemma ProperDivisor(n: nat, d: nat)
    requires 2 <= d < n && d < 19 && n % d == 0
    ensures !Tested(n)
  {
    var f: nat := if d % 2 == 0 then 2 else if d % 3 == 0 then 3 else if d % 5 == 0 then 5 else d;
    assert f == 2 || f == 3 || f == 5 || f == 7 || f == 11 || f == 13 || f == 17;
    FactorDivides(n, d, f);
  }

  lemma LargeProduct(d: nat, q: nat)
    ensures d >= 19 && q >= 19 ==> d * q >= 361
    ensures q == 0 ==> d * q == 0
  {
    if d >= 19 && q >= 19 {
      assert d * q == 361 + (d - 19) * 19 + d * (q - 19);
    }
  }

  lemma Divided(n: nat, d: nat)
    requires 2 <= d < n < 361 && n % d == 0
    ensures !Tested(n)
  {
    if d < 19 {
      ProperDivisor(n, d);
    } else {
      var q := n / d;
      assert n == d * q;
      LargeProduct(d, q);
      DivModUnique(n, q, d, 0);
      ProperDivisor(n, q);
    }
  }

  lemma TestedIsPrime(n: nat)
    requires n < 361
    ensures Tested(n) <==> IsPrime(n)
  {
    if Tested(n) {
      forall d | 2 <= d < n
        ensures n % d != 0
      {
        if n % d == 0 {
          Divided(n, d);
          assert false;
        }
      }
    }
  }

  predicate NoneBetween(n: nat, end: nat)
    decreases end - n
  {
    n + 1 >= end || (!Tested(n + 1) && NoneBetween(n + 1, end))
  }

  lemma {:induction false} NoPrimeBetween(n: nat, end: nat)
    requires n < end <= 361 && NoneBetween(n, end)
    ensures PrimesBelow(end) == PrimesBelow(n + 1)
    decreases end - n
  {
    if n + 1 < end {
      TestedIsPrime(n + 1);
      NoPrimeBetween(n + 1, end);
    }
  }

  lemma NextPrime(p: nat, q: nat, i: nat)
    requires IsNthPrime(p, i) && p < q < 361 && NoneBetween(p, q) && Tested(q)
    ensures IsNthPrime(q, i + 1)
  {
    NoPrimeBetween(p, q);
    TestedIsPrime(q);
  }

  lemma FirstPrime()
    ensures IsNthPrime(2, 0)
  {
    assert PrimesBelow(2) == PrimesBelow(1) == PrimesBelow(0);
  }

  // ---------------------------------------------------------------- the tables

  /** The first 32 bits of the fraction of the cube root of `p` are `k`; its whole part is `c`. */
  predicate CubeRootFraction(p: nat, c: nat, k: nat) {
    && c * c * c <= p < (c + 1) * (c + 1) * (c + 1)
    && var r, n := c * 0x1_0000_0000 + k, p * 0x1_0000_0000_0000_0000_0000_0000;
       r * r * r <= n < (r + 1) * (r + 1) * (r + 1)
  }

  /** The same for the square root. */
  predicate SquareRootFraction(p: nat, c: nat, k: nat) {
    && c * c <= p < (c + 1) * (c + 1)
    && var r, n := c * 0x1_0000_0000 + k, p * 0x1_0000_0000_0000_0000;
       r * r <= n < (r + 1) * (r + 1)
  }

  ghost predicate IsRoundConstant(i: nat, k: word) {
    exists p, c :: IsNthPrime(p, i) && CubeRootFraction(p, c, k)
  }

  ghost predicate IsInitialWord(i: nat, k: word) {
    exists p, c :: IsNthPrime(p, i) && SquareRootFraction(p, c, k)
  }

  lemma Constant(p: nat, i: nat, c: nat, k: word)
    requires IsNthPrime(p, i) && CubeRootFraction(p, c, k)
    ensures IsRoundConstant(i, k)
  {
  }

  /** The constant after that of the prime `p`. */
  lemma NextConstant(p: nat, q: nat, i: nat, c: nat, k: word)
    requires i > 0 && IsNthPrime(p, i - 1) && p < q < 361 && NoneBetween(p, q) && Tested(q)
    requires CubeRootFraction(q, c, k)
    ensures IsNthPrime(q, i) && IsRoundConstant(i, k)
  {
    hide IsNthPrime, CubeRootFraction, IsRoundConstant;
    NextPrime(p, q, i - 1);
    Constant(q, i, c, k);
  }

  lemma Line0()
    ensures IsNthPrime(19, 7) && forall j :: 0 <= j < 8 ==> IsRoundConstant(j, LINE0[j])
  {
    hide IsNthPrime, IsRoundConstant;
    FirstPrime();
    Constant(2, 0, 1, 0x428a2f98);
    NextConstant(2, 3, 1, 1, 0x71374491);
    NextConstant(3, 5, 2, 1, 0xb5c0fbcf);
    NextConstant(5, 7, 3, 1, 0xe9b5dba5);
    NextConstant(7, 11, 4, 2, 0x3956c25b);
    NextConstant(11, 13, 5, 2, 0x59f111f1);
    NextConstant(13, 17, 6, 2, 0x923f82a4);
    NextConstant(17, 19, 7, 2, 0xab1c5ed5);
  }

  lemma Line1()
    requires IsNthPrime(19, 7)
    ensures IsNthPrime(53, 15) && forall j :: 0 <= j < 8 ==> IsRoundConstant(8 + j, LINE1[j])
  {
    hide IsNthPrime, IsRoundConstant;
    NextConstant(19, 23, 8, 2, 0xd807aa98);
    NextConstant(23, 29, 9, 3, 0x12835b01);
    NextConstant(29, 31, 10, 3, 0x243185be);
    NextConstant(31, 37, 11, 3, 0x550c7dc3);
    NextConstant(37, 41, 12, 3, 0x72be5d74);
    NextConstant(41, 43, 13, 3, 0x80deb1fe);
    NextConstant(43, 47, 14, 3, 0x9bdc06a7);
    NextConstant(47, 53, 15, 3, 0xc19bf174);
  }

  lemma Line2()
    requires IsNthPrime(53, 15)
    ensures IsNthPrime(89, 23) && forall j :: 0 <= j < 8 ==> IsRoundConstant(16 + j, LINE2[j])
  {
    hide IsNthPrime, IsRoundConstant;
    NextConstant(53, 59, 16, 3, 0xe49b69c1);
    NextConstant(59, 61, 17, 3, 0xefbe4786);
    NextConstant(61, 67, 18, 4, 0x0fc19dc6);
    NextConstant(67, 71, 19, 4, 0x240ca1cc);
    NextConstant(71, 73, 20, 4, 0x2de92c6f);
    NextConstant(73, 79, 21, 4, 0x4a7484aa);
    NextConstant(79, 83, 22, 4, 0x5cb0a9dc);
    NextConstant(83, 89, 23, 4, 0x76f988da);
  }

  lemma Line3()
    requires IsNthPrime(89, 23)
    ensures IsNthPrime(131, 31) && forall j :: 0 <= j < 8 ==> IsRoundConstant(24 + j, LINE3[j])
  {
    hide IsNthPrime, IsRoundConstant;
    NextConstant(89, 97, 24, 4, 0x983e5152);
    NextConstant(97, 101, 25, 4, 0xa831c66d);
    NextConstant(101, 103, 26, 4, 0xb00327c8);
    NextConstant(103, 107, 27, 4, 0xbf597fc7);
    NextConstant(107, 109, 28, 4, 0xc6e00bf3);
    NextConstant(109, 113, 29, 4, 0xd5a79147);
    NextConstant(113, 127, 30, 5, 0x06ca6351);
    NextConstant(127, 131, 31, 5, 0x14292967);
  }

  lemma Line4()
    requires IsNthPrime(131, 31)
    ensures IsNthPrime(173, 39) && forall j :: 0 <= j < 8 ==> IsRoundConstant(32 + j, LINE4[j])
  {
    hide IsNthPrime, IsRoundConstant;
    NextConstant(131, 137, 32, 5, 0x27b70a85);
    NextConstant(137, 139, 33, 5, 0x2e1b2138);
    NextConstant(139, 149, 34, 5, 0x4d2c6dfc);
    NextConstant(149, 151, 35, 5, 0x53380d13);
    NextConstant(151, 157, 36, 5, 0x650a7354);
    NextConstant(157, 163, 37, 5, 0x766a0abb);
    NextConstant(163, 167, 38, 5, 0x81c2c92e);
    NextConstant(167, 173, 39, 5, 0x92722c85);
  }

  lemma Line5()
    requires IsNthPrime(173, 39)
    ensures IsNthPrime(223, 47) && forall j :: 0 <= j < 8 ==> IsRoundConstant(40 + j, LINE5[j])
  {
    hide IsNthPrime, IsRoundConstant;
    NextConstant(173, 179, 40, 5, 0xa2bfe8a1);
    NextConstant(179, 181, 41, 5, 0xa81a664b);
    NextConstant(181, 191, 42, 5, 0xc24b8b70);
    NextConstant(191, 193, 43, 5, 0xc76c51a3);
    NextConstant(193, 197, 44, 5, 0xd192e819);
    NextConstant(197, 199, 45, 5, 0xd6990624);
    NextConstant(199, 211, 46, 5, 0xf40e3585);
    NextConstant(211, 223, 47, 6, 0x106aa070);
  }

  lemma Line6()
    requires IsNthPrime(223, 47)
    ensures IsNthPrime(263, 55) && forall j :: 0 <= j < 8 ==> IsRoundConstant(48 + j, LINE6[j])
  {
    hide IsNthPrime, IsRoundConstant;
    NextConstant(223, 227, 48, 6, 0x19a4c116);
    NextConstant(227, 229, 49, 6, 0x1e376c08);
    NextConstant(229, 233, 50, 6, 0x2748774c);
    NextConstant(233, 239, 51, 6, 0x34b0bcb5);
    NextConstant(239, 241, 52, 6, 0x391c0cb3);
    NextConstant(241, 251, 53, 6, 0x4ed8aa4a);
    NextConstant(251, 257, 54, 6, 0x5b9cca4f);
    NextConstant(257, 263, 55, 6, 0x682e6ff3);
  }

  lemma Line7()
    requires IsNthPrime(263, 55)
    ensures IsNthPrime(311, 63) && forall j :: 0 <= j < 8 ==> IsRoundConstant(56 + j, LINE7[j])
  {
    hide IsNthPrime, IsRoundConstant;
    NextConstant(263, 269, 56, 6, 0x748f82ee);
    NextConstant(269, 271, 57, 6, 0x78a5636f);
    NextConstant(271, 277, 58, 6, 0x84c87814);
    NextConstant(277, 281, 59, 6, 0x8cc70208);
    NextConstant(281, 283, 60, 6, 0x90befffa);
    NextConstant(283, 293, 61, 6, 0xa4506ceb);
    NextConstant(293, 307, 62, 6, 0xbef9a3f7);
    NextConstant(307, 311, 63, 6, 0xc67178f2);
  }

  /** Round constant `i` is the first 32 bits of the fraction of the cube root of the i-th prime. */
  lemma RoundConstantsAreCubeRoots()
    ensures |ROUND_CONSTANTS| == 64 && forall i :: 0 <= i < 64 ==> IsRoundConstant(i, ROUND_CONSTANTS[i])
  {
    hide IsNthPrime, IsRoundConstant;
    Line0();
    Line1();
    Line2();
    Line3();
    Line4();
    Line5();
    Line6();
    Line7();
  }

  /** Word `i` of the initial state is the first 32 bits of the fraction of the square root of the i-th prime. */
  lemma InitialStateIsSquareRoots()
    ensures |INITIAL_STATE| == 8 && forall i :: 0 <= i < 8 ==> IsInitialWord(i, INITIAL_STATE[i])
  {
    hide IsNthPrime;
    FirstPrime();
    NextPrime(2, 3, 0);
    NextPrime(3, 5, 1);
    NextPrime(5, 7, 2);
    NextPrime(7, 11, 3);
    NextPrime(11, 13, 4);
    NextPrime(13, 17, 5);
    NextPrime(17, 19, 6);
    assert SquareRootFraction(2, 1, 0x6a09e667);
    assert SquareRootFraction(3, 1, 0xbb67ae85);
    assert SquareRootFraction(5, 2, 0x3c6ef372);
    assert SquareRootFraction(7, 2, 0xa54ff53a);
    assert SquareRootFraction(11, 3, 0x510e527f);
    assert SquareRootFraction(13, 3, 0x9b05688c);
    assert SquareRootFraction(17, 4, 0x1f83d9ab);
    assert SquareRootFraction(19, 4, 0x5be0cd19);
  }

  // ---------------------------------------------------------------- the logical functions

  lemma OneBit(op: BitOp, x: word, y: word, i: nat)
    requires i < 32
    ensures op == AndOp ==> BitAt(And(x, y), i) == if BitAt(x, i) == 1 && BitAt(y, i) == 1 then 1 else 0
    ensures op == XorOp ==> BitAt(Xor(x, y), i) == if BitAt(x, i) != BitAt(y, i) then 1 else 0
  {
    hide BitAt, Bitwise;
    BitwiseBit(op, x, y, 32, i);
  }

  lemma {:induction false} AllOnes(width: nat, i: nat)
    requires i < width
    ensures BitAt(Pow2(width) - 1, i) == 1
  {
    var m := Pow2(width - 1);
    assert (2 * m - 1) % 2 == 1 && (2 * m - 1) / 2 == m - 1;
    if i > 0 {
      AllOnes(width - 1, i - 1);
    }
  }

  /** Each bit of `Ch` is that of the second word or of the third, as the first one chooses. */
  lemma ChBits(x: word, y: word, z: word, i: nat)
    requires i < 32
    ensures BitAt(Ch(x, y, z), i) == if BitAt(x, i) == 1 then BitAt(y, i) else BitAt(z, i)
  {
    hide BitAt, And, Xor;
    Pow2Of32();
    AllOnes(32, i);
    OneBit(AndOp, x, y, i);
    OneBit(XorOp, x, 0xffff_ffff, i);
    OneBit(AndOp, Not(x), z, i);
    OneBit(XorOp, And(x, y), And(Not(x), z), i);
  }

  /** Each bit of `Maj` is the one at least two of the words have. */
  lemma MajBits(x: word, y: word, z: word, i: nat)
    requires i < 32
    ensures BitAt(Maj(x, y, z), i) == if BitAt(x, i) + BitAt(y, i) + BitAt(z, i) >= 2 then 1 else 0
  {
    hide BitAt, And, Xor;
    OneBit(AndOp, x, y, i);
    OneBit(AndOp, x, z, i);
    OneBit(AndOp, y, z, i);
    OneBit(XorOp, And(x, y), And(x, z), i);
    OneBit(XorOp, Xor(And(x, y), And(x, z)), And(y, z), i);
  }

  /** The bit `n` places higher, cyclically. */
  function Rotated(x: word, n: nat, i: nat): nat {
    BitAt(x, (i + n) % 32)
  }

  /** The bit `n` places higher, or none. */
  function Shifted(x: word, n: nat, i: nat): nat {
    if i + n < 32 then BitAt(x, i + n) else 0
  }

  lemma ParityOfThree(a: word, b: word, c: word, i: nat)
    requires i < 32
    ensures BitAt(Xor(Xor(a, b), c), i) == (BitAt(a, i) + BitAt(b, i) + BitAt(c, i)) % 2
  {
    hide BitAt, Xor;
    OneBit(XorOp, a, b, i);
    OneBit(XorOp, Xor(a, b), c, i);
  }

  lemma ShrBit(x: word, n: nat, i: nat)
    requires i < 32
    ensures BitAt(Shr(x, n), i) == Shifted(x, n, i)
  {
    hide BitAt, ShiftRight;
    Pow2Of32();
    ShiftRightBit(x, n, i);
    if i + n >= 32 {
      HighBitsZero(x, 32, i + n);
    }
  }

  /** The two functions of the round: the parity of three rotations. */
  lemma BigSigmaBits(x: word, i: nat)
    requires i < 32
    ensures BitAt(BigSigma0(x), i) == (Rotated(x, 2, i) + Rotated(x, 13, i) + Rotated(x, 22, i)) % 2
    ensures BitAt(BigSigma1(x), i) == (Rotated(x, 6, i) + Rotated(x, 11, i) + Rotated(x, 25, i)) % 2
  {
    hide BitAt, Rotr, Xor;
    RotrMovesEveryBit(x, 2, i);
    RotrMovesEveryBit(x, 13, i);
    RotrMovesEveryBit(x, 22, i);
    ParityOfThree(Rotr(x, 2), Rotr(x, 13), Rotr(x, 22), i);
    RotrMovesEveryBit(x, 6, i);
    RotrMovesEveryBit(x, 11, i);
    RotrMovesEveryBit(x, 25, i);
    ParityOfThree(Rotr(x, 6), Rotr(x, 11), Rotr(x, 25), i);
  }

  /** The two functions of the schedule: the parity of two rotations and a shift. */
  lemma SmallSigmaBits(x: word, i: nat)
    requires i < 32
    ensures BitAt(SmallSigma0(x), i) == (Rotated(x, 7, i) + Rotated(x, 18, i) + Shifted(x, 3, i)) % 2
    ensures BitAt(SmallSigma1(x), i) == (Rotated(x, 17, i) + Rotated(x, 19, i) + Shifted(x, 10, i)) % 2
  {
    hide BitAt, Rotr, Xor, Shr;
    RotrMovesEveryBit(x, 7, i);
    RotrMovesEveryBit(x, 18, i);
    ShrBit(x, 3, i);
    ParityOfThree(Rotr(x, 7), Rotr(x, 18), Shr(x, 3), i);
    RotrMovesEveryBit(x, 17, i);
    RotrMovesEveryBit(x, 19, i);
    ShrBit(x, 10, i);
    ParityOfThree(Rotr(x, 17), Rotr(x, 19), Shr(x, 10), i);
  }
}
