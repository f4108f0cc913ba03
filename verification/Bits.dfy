/** The 32-bit operators of JavaScript on non-negative numbers, bit by bit. */
module Bits {

  type byte = n: nat | n < 256
  type word = n: nat | n < 0x1_0000_0000

  function Pow2(k: nat): (p: nat)
    ensures p > 0
  {
    if k == 0 then 1 else 2 * Pow2(k - 1)
  }

  datatype BitOp = AndOp | OrOp | XorOp

  function BitResult(op: BitOp, p: nat, q: nat): (r: nat)
    requires p < 2 && q < 2
    ensures r < 2
  {
    match op
    case AndOp => if p == 1 && q == 1 then 1 else 0
    case OrOp => if p == 1 || q == 1 then 1 else 0
    case XorOp => if p != q then 1 else 0
  }

  /** The low `width` bits of the two operands, combined bit by bit. */
  function Bitwise(op: BitOp, x: nat, y: nat, width: nat): (r: nat)
    ensures r < Pow2(width)
  {
    if width == 0 then 0 else 2 * Bitwise(op, x / 2, y / 2, width - 1) + BitResult(op, x % 2, y % 2)
  }

  lemma Pow2Of32()
    ensures Pow2(32) == 0x1_0000_0000
  {
    assert Pow2(8) == 0x100;
    Pow2Adds(8, 8);
    Pow2Adds(16, 16);
  }

  lemma {:induction false} Pow2Adds(j: nat, k: nat)
    ensures Pow2(j + k) == Pow2(j) * Pow2(k)
  {
    if j > 0 {
      Pow2Adds(j - 1, k);
      assert Pow2(j) * Pow2(k) == 2 * (Pow2(j - 1) * Pow2(k));
    }
  }

  function And(x: word, y: word): word { Pow2Of32(); Bitwise(AndOp, x, y, 32) }
  function Or(x: word, y: word): word { Pow2Of32(); Bitwise(OrOp, x, y, 32) }
  function Xor(x: word, y: word): word { Pow2Of32(); Bitwise(XorOp, x, y, 32) }
  function Not(x: word): word { Xor(x, 0xffff_ffff) }

  function ShiftRight(x: nat, bits: nat): (r: nat)
    ensures r <= x
  {
    if bits == 0 then x else ShiftRight(x / 2, bits - 1)
  }

  function ShiftLeft(x: nat, bits: nat): nat {
    if bits == 0 then x else 2 * ShiftLeft(x, bits - 1)
  }

  /** `x >>> bits` */
  function Shr(x: word, bits: nat): word { ShiftRight(x, bits) }

  /** `x << bits`, after `>>> 0` */
  function Shl(x: word, bits: nat): word { ShiftLeft(x, bits) % 0x1_0000_0000 }

  function BitAt(x: nat, i: nat): (b: nat)
    ensures b < 2
  {
    if i == 0 then x % 2 else BitAt(x / 2, i - 1)
  }

  // ---------------------------------------------------------------- bits of results

  /** A word combined with itself. */
  lemma {:induction false} WithItself(x: nat, width: nat)
    requires x < Pow2(width)
    ensures Bitwise(AndOp, x, x, width) == x && Bitwise(OrOp, x, x, width) == x && Bitwise(XorOp, x, x, width) == 0
  {
    if width > 0 {
      WithItself(x / 2, width - 1);
    }
  }

  lemma {:induction false} BitwiseBit(op: BitOp, x: nat, y: nat, width: nat, i: nat)
    requires i < width
    ensures BitAt(Bitwise(op, x, y, width), i) == BitResult(op, BitAt(x, i), BitAt(y, i))
  {
    var low := BitResult(op, x % 2, y % 2);
    var high := Bitwise(op, x / 2, y / 2, width - 1);
    assert (2 * high + low) / 2 == high && (2 * high + low) % 2 == low;
    if i > 0 {
      BitwiseBit(op, x / 2, y / 2, width - 1, i - 1);
    }
  }

  lemma {:induction false} ShiftRightBit(x: nat, bits: nat, i: nat)
    ensures BitAt(ShiftRight(x, bits), i) == BitAt(x, i + bits)
  {
    if bits > 0 {
      ShiftRightBit(x / 2, bits - 1, i);
    }
  }

  lemma {:induction false} ShiftLeftBit(x: nat, bits: nat, i: nat)
    ensures BitAt(ShiftLeft(x, bits), i) == if i < bits then 0 else BitAt(x, i - bits)
  {
    if bits > 0 {
      var half := ShiftLeft(x, bits - 1);
      assert 2 * half / 2 == half && 2 * half % 2 == 0;
      if i > 0 {
        ShiftLeftBit(x, bits - 1, i - 1);
      }
    }
  }

  lemma {:induction false} LowBits(x: nat, width: nat, i: nat)
    requires i < width
    ensures BitAt(x % Pow2(width), i) == BitAt(x, i)
  {
    ModHalf(x, width);
    if i > 0 {
      LowBits(x / 2, width - 1, i - 1);
    }
  }

  lemma ModHalf(x: nat, k: nat)
    requires k > 0
    ensures x % Pow2(k) / 2 == x / 2 % Pow2(k - 1)
    ensures x % Pow2(k) % 2 == x % 2
  {
    var p := Pow2(k - 1);
    var q, r := x / (2 * p), x % (2 * p);
    assert x == 2 * p * q + r == 2 * (p * q) + r;
    assert x / 2 == p * q + r / 2 && r / 2 < p;
    DivModUnique(x / 2, p, q, r / 2);
  }

  lemma DivModUnique(n: nat, d: nat, q: nat, r: nat)
    requires n == d * q + r && r < d
    ensures n / d == q && n % d == r
  {
    var q', r' := n / d, n % d;
    var k: int := q as int - q' as int;
    assert k * d + r == r';
    MultiplesAreFar(k, d);
  }

  lemma MultiplesAreFar(k: int, d: int)
    requires d >= 0
    ensures k >= 1 ==> k * d >= d
    ensures k <= -1 ==> k * d <= -d
  {
    if k >= 1 {
      assert k * d == (k - 1) * d + d;
    } else if k <= -1 {
      assert k * d == (k + 1) * d - d;
    }
  }

  lemma {:induction false} HighBitsZero(x: nat, width: nat, i: nat)
    requires x < Pow2(width) && i >= width
    ensures BitAt(x, i) == 0
  {
    if i > 0 {
      if width == 0 {
        HighBitsZero(x / 2, 0, i - 1);
      } else {
        HighBitsZero(x / 2, width - 1, i - 1);
      }
    }
  }

  /** Words with the same 32 bits are equal. */
  lemma {:induction false} SameBits(x: nat, y: nat, width: nat)
    requires x < Pow2(width) && y < Pow2(width)
    requires forall i :: 0 <= i < width ==> BitAt(x, i) == BitAt(y, i)
    ensures x == y
  {
    if width > 0 {
      assert BitAt(x, 0) == BitAt(y, 0);
      forall i | 0 <= i < width - 1
        ensures BitAt(x / 2, i) == BitAt(y / 2, i)
      {
        assert BitAt(x, i + 1) == BitAt(y, i + 1);
      }
      SameBits(x / 2, y / 2, width - 1);
    }
  }

  // ---------------------------------------------------------------- bits as arithmetic

  lemma DivideTwice(x: nat, p: nat)
    requires p > 0
    ensures x / 2 / p == x / (2 * p)
  {
    var q, r := x / 2 / p, x / 2 % p;
    assert x == 2 * (p * q + r) + x % 2 == 2 * p * q + (2 * r + x % 2);
    DivModUnique(x, 2 * p, q, 2 * r + x % 2);
  }

  lemma {:induction false} ShiftRightDivides(x: nat, bits: nat)
    ensures ShiftRight(x, bits) == x / Pow2(bits)
  {
    if bits > 0 {
      ShiftRightDivides(x / 2, bits - 1);
      DivideTwice(x, Pow2(bits - 1));
    }
  }

  lemma {:induction false} ShiftLeftMultiplies(x: nat, bits: nat)
    ensures ShiftLeft(x, bits) == x * Pow2(bits)
  {
    if bits > 0 {
      ShiftLeftMultiplies(x, bits - 1);
      assert x * Pow2(bits) == 2 * (x * Pow2(bits - 1));
    }
  }

  function Remainder(x: nat, k: nat): nat {
    x % Pow2(k)
  }

  lemma RemainderStep(x: nat, k: nat)
    ensures k == 0 ==> Remainder(x, k) == 0 && Pow2(k) == 1
    ensures k > 0 ==> Pow2(k) == 2 * Pow2(k - 1) && Remainder(x, k) == 2 * Remainder(x / 2, k - 1) + x % 2
  {
    if k > 0 {
      ModHalf(x, k);
      HalfAndBit(x % Pow2(k));
    }
  }

  lemma HalfAndBit(n: nat)
    ensures n == 2 * (n / 2) + n % 2
  {
  }

  lemma AndOneMore(x: nat, p: nat, width: nat)
    requires width > 0 && p > 0
    ensures Bitwise(AndOp, x, 2 * p - 1, width) == 2 * Bitwise(AndOp, x / 2, p - 1, width - 1) + x % 2
  {
    assert (2 * p - 1) / 2 == p - 1 && (2 * p - 1) % 2 == 1;
  }

  lemma {:induction false} MaskIsRemainder(x: nat, k: nat, width: nat)
    requires k <= width
    ensures Bitwise(AndOp, x, Pow2(k) - 1, width) == Remainder(x, k)
  {
    hide Bitwise, Remainder, Pow2;
    RemainderStep(x, k);
    if k == 0 {
      AndWithZero(x, width);
    } else {
      AndOneMore(x, Pow2(k - 1), width);
      MaskIsRemainder(x / 2, k - 1, width - 1);
    }
  }

  /** Masking with 2^k - 1 is the remainder modulo 2^k. */
  lemma MaskIsMod(x: nat, k: nat, width: nat)
    requires k <= width
    ensures Bitwise(AndOp, x, Pow2(k) - 1, width) == x % Pow2(k)
  {
    hide Bitwise, Pow2;
    MaskIsRemainder(x, k, width);
  }

  lemma {:induction false} AndWithZero(x: nat, width: nat)
    ensures Bitwise(AndOp, x, 0, width) == 0
  {
    if width > 0 {
      AndWithZero(x / 2, width - 1);
    }
  }

  lemma {:induction false} OrWithZero(x: nat, width: nat)
    requires x < Pow2(width)
    ensures Bitwise(OrOp, x, 0, width) == x == Bitwise(OrOp, 0, x, width)
  {
    if width > 0 {
      OrWithZero(x / 2, width - 1);
    }
  }

  /** The disjunction of numbers without a common bit is their sum. */
  lemma {:induction false} OrIsSum(high: nat, low: nat, k: nat, width: nat)
    requires k <= width && low < Pow2(k) && high * Pow2(k) + low < Pow2(width)
    ensures Bitwise(OrOp, high * Pow2(k), low, width) == high * Pow2(k) + low
  {
    if k == 0 {
      assert high * Pow2(k) == high;
      OrWithZero(high, width);
    } else {
      var half := high * Pow2(k - 1);
      assert high * Pow2(k) == 2 * half;
      OrIsSum(high, low / 2, k - 1, width - 1);
    }
  }
}
