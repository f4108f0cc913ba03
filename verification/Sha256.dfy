/** The pure-TypeScript SHA-256 of miniprogram/lib/sha256.ts, proved against FIPS 180-4.

    A JavaScript number that holds a 32-bit word is a `word`, with the operators of module Bits. A sum
    of such numbers is an unbounded integer, and `>>> 0` is `ToUint32`, which demands that the sum is
    still an exact double (below 2^53). */
module Sha256 {
  import opened Bits

  const TWO_POW_32: nat := 0x1_0000_0000

  /** Number.MAX_SAFE_INTEGER + 1, and one more than the largest length of a typed array. */
  const TWO_POW_53: nat := 0x20_0000_0000_0000

  /** The eight lines of the table of round constants. */
  const LINE0: seq<word> :=
    [0x428a2f98, 0x71374491, 0xb5c0fbcf, 0xe9b5dba5, 0x3956c25b, 0x59f111f1, 0x923f82a4, 0xab1c5ed5]
  const LINE1: seq<word> :=
    [0xd807aa98, 0x12835b01, 0x243185be, 0x550c7dc3, 0x72be5d74, 0x80deb1fe, 0x9bdc06a7, 0xc19bf174]
  const LINE2: seq<word> :=
    [0xe49b69c1, 0xefbe4786, 0x0fc19dc6, 0x240ca1cc, 0x2de92c6f, 0x4a7484aa, 0x5cb0a9dc, 0x76f988da]
  const LINE3: seq<word> :=
    [0x983e5152, 0xa831c66d, 0xb00327c8, 0xbf597fc7, 0xc6e00bf3, 0xd5a79147, 0x06ca6351, 0x14292967]
  const LINE4: seq<word> :=
    [0x27b70a85, 0x2e1b2138, 0x4d2c6dfc, 0x53380d13, 0x650a7354, 0x766a0abb, 0x81c2c92e, 0x92722c85]
  const LINE5: seq<word> :=
    [0xa2bfe8a1, 0xa81a664b, 0xc24b8b70, 0xc76c51a3, 0xd192e819, 0xd6990624, 0xf40e3585, 0x106aa070]
  const LINE6: seq<word> :=
    [0x19a4c116, 0x1e376c08, 0x2748774c, 0x34b0bcb5, 0x391c0cb3, 0x4ed8aa4a, 0x5b9cca4f, 0x682e6ff3]
  const LINE7: seq<word> :=
    [0x748f82ee, 0x78a5636f, 0x84c87814, 0x8cc70208, 0x90befffa, 0xa4506ceb, 0xbef9a3f7, 0xc67178f2]

  const ROUND_CONSTANTS: seq<word> := LINE0 + LINE1 + LINE2 + LINE3 + LINE4 + LINE5 + LINE6 + LINE7

  const INITIAL_STATE: seq<word> := [
    0x6a09e667, 0xbb67ae85, 0x3c6ef372, 0xa54ff53a, 0x510e527f, 0x9b05688c, 0x1f83d9ab, 0x5be0cd19]

  // ---------------------------------------------------------------- JavaScript arithmetic

  /** `rotr` */
  function Rotr(value: word, bits: nat): word
    requires 0 < bits < 32
  {
    Or(Shr(value, bits), Shl(value, 32 - bits))
  }

  /** ROTR of FIPS 180-4 section 3.2: bit i of the result is bit i+n, cyclically, of the argument. */
  lemma RotrMovesEveryBit(x: word, n: nat, i: nat)
    requires 0 < n < 32 && i < 32
    ensures BitAt(Rotr(x, n), i) == BitAt(x, (i + n) % 32)
  {
    hide Bitwise, ShiftLeft, ShiftRight, BitAt, Pow2;
    Pow2Of32();
    BitwiseBit(OrOp, Shr(x, n), Shl(x, 32 - n), 32, i);
    ShiftRightBit(x, n, i);
    LowBits(ShiftLeft(x, 32 - n), 32, i);
    ShiftLeftBit(x, 32 - n, i);
    if i + n >= 32 {
      HighBitsZero(x, 32, i + n);
    }
  }

  /** Rotations compose, and rotating all the way round changes nothing. */
  lemma RotrUndone(x: word, n: nat)
    requires 0 < n < 32
    ensures Rotr(Rotr(x, n), 32 - n) == x
  {
    hide Rotr, BitAt, Pow2;
    Pow2Of32();
    var y := Rotr(Rotr(x, n), 32 - n);
    forall i | 0 <= i < 32
      ensures BitAt(y, i) == BitAt(x, i)
    {
      RotrMovesEveryBit(Rotr(x, n), 32 - n, i);
      RotrMovesEveryBit(x, n, (i + (32 - n)) % 32);
    }
    SameBits(y, x, 32);
  }

  /** `sum >>> 0`. The sum must still be an exact double. */
  function ToUint32(sum: nat): word
    requires sum < TWO_POW_53
  {
    sum % TWO_POW_32
  }

  /** Sums of numbers, as doubles. */
  function Sum2(a: word, b: word): (s: nat)
    ensures s < TWO_POW_53
  {
    a + b
  }

  function Sum4(a: word, b: word, c: word, d: word): (s: nat)
    ensures s < TWO_POW_53
  {
    a + b + c + d
  }

  function Sum5(a: word, b: word, c: word, d: word, e: word): (s: nat)
    ensures s < TWO_POW_53
  {
    a + b + c + d + e
  }

  // ---------------------------------------------------------------- FIPS 180-4

  /** Addition modulo 2^32 (section 3.2). */
  function Plus(x: word, y: word): word { (x + y) % TWO_POW_32 }

  lemma PlusAfterReduction(n: nat, y: word)
    ensures (n + y) % TWO_POW_32 == Plus(n % TWO_POW_32, y)
  {
  }

  lemma OneReductionOf2(a: word, b: word)
    ensures ToUint32(Sum2(a, b)) == Plus(a, b)
  {
  }

  /** One reduction at the end of an exact sum gives the nested sums modulo 2^32, in any order. */
  lemma OneReductionOf4(a: word, b: word, c: word, d: word)
    ensures ToUint32(Sum4(d, c, b, a)) == Plus(Plus(Plus(a, b), c), d)
  {
    PlusAfterReduction(Sum2(a, b), c);
    PlusAfterReduction(Sum2(a, b) + c, d);
  }

  lemma OneReductionOf5(a: word, b: word, c: word, d: word, e: word)
    ensures ToUint32(Sum5(a, b, c, d, e)) == Plus(Plus(Plus(Plus(a, b), c), d), e)
  {
    OneReductionOf4(a, b, c, d);
    PlusAfterReduction(Sum4(a, b, c, d), e);
  }

  function Ch(x: word, y: word, z: word): word { Xor(And(x, y), And(Not(x), z)) }
  function Maj(x: word, y: word, z: word): word { Xor(Xor(And(x, y), And(x, z)), And(y, z)) }
  function BigSigma0(x: word): word { Xor(Xor(Rotr(x, 2), Rotr(x, 13)), Rotr(x, 22)) }
  function BigSigma1(x: word): word { Xor(Xor(Rotr(x, 6), Rotr(x, 11)), Rotr(x, 25)) }
  function SmallSigma0(x: word): word { Xor(Xor(Rotr(x, 7), Rotr(x, 18)), Shr(x, 3)) }
  function SmallSigma1(x: word): word { Xor(Xor(Rotr(x, 17), Rotr(x, 19)), Shr(x, 10)) }

  /** The message schedule of section 6.2.2, step 1. */
  function ScheduleWord(block: seq<word>, t: nat): word
    requires |block| == 16
  {
    if t < 16 then block[t]
    else Plus(Plus(Plus(SmallSigma1(ScheduleWord(block, t - 2)), ScheduleWord(block, t - 7)),
                   SmallSigma0(ScheduleWord(block, t - 15))),
              ScheduleWord(block, t - 16))
  }

  datatype Working = Working(a: word, b: word, c: word, d: word, e: word, f: word, g: word, h: word)

  /** One iteration of section 6.2.2, step 3. */
  function Round(v: Working, k: word, w: word): Working {
    var t1 := Plus(Plus(Plus(Plus(v.h, BigSigma1(v.e)), Ch(v.e, v.f, v.g)), k), w);
    var t2 := Plus(BigSigma0(v.a), Maj(v.a, v.b, v.c));
    Working(Plus(t1, t2), v.a, v.b, v.c, Plus(v.d, t1), v.e, v.f, v.g)
  }

  function Rounds(v: Working, block: seq<word>, t: nat): Working
    requires |block| == 16 && t <= 64
  {
    if t == 0 then v
    else Round(Rounds(v, block, t - 1), ROUND_CONSTANTS[t - 1], ScheduleWord(block, t - 1))
  }

  function FromState(s: seq<word>): Working
    requires |s| == 8
  {
    Working(s[0], s[1], s[2], s[3], s[4], s[5], s[6], s[7])
  }

  /** Section 6.2.2, step 4. */
  function AddWorking(s: seq<word>, v: Working): (r: seq<word>)
    requires |s| == 8
    ensures |r| == 8
  {
    [Plus(s[0], v.a), Plus(s[1], v.b), Plus(s[2], v.c), Plus(s[3], v.d),
     Plus(s[4], v.e), Plus(s[5], v.f), Plus(s[6], v.g), Plus(s[7], v.h)]
  }

  function Compress(s: seq<word>, block: seq<word>): (r: seq<word>)
    requires |s| == 8 && |block| == 16
    ensures |r| == 8
  {
    AddWorking(s, Rounds(FromState(s), block, 64))
  }

  function BigEndianWord(b0: byte, b1: byte, b2: byte, b3: byte): word {
    0x100_0000 * b0 + 0x1_0000 * b1 + 0x100 * b2 + b3
  }

  /** The sixteen big-endian words of block `n` (section 5.2.1). */
  function BlockWords(bytes: seq<byte>, n: nat): (w: seq<word>)
    requires 64 * n + 64 <= |bytes|
    ensures |w| == 16
  {
    seq(16, i requires 0 <= i < 16 =>
      BigEndianWord(bytes[64 * n + 4 * i], bytes[64 * n + 4 * i + 1],
                    bytes[64 * n + 4 * i + 2], bytes[64 * n + 4 * i + 3]))
  }

  /** H after `n` blocks. */
  function HashBlocks(bytes: seq<byte>, n: nat): (s: seq<word>)
    requires 64 * n <= |bytes|
    ensures |s| == 8
  {
    if n == 0 then INITIAL_STATE
    else Compress(HashBlocks(bytes, n - 1), BlockWords(bytes, n - 1))
  }

  function ByteOfWord(w: word, position: nat): byte
    requires position < 4
  {
    var unit :=
      if position == 0 then 0x100_0000 else if position == 1 then 0x1_0000 else if position == 2 then 0x100 else 1;
    w / unit % 256
  }

  function WordsToBytes(s: seq<word>): seq<byte> {
    seq(4 * |s|, i requires 0 <= i < 4 * |s| => ByteOfWord(s[i / 4], i % 4))
  }

  /** Padding of section 5.1.1, in bytes: the message, a one bit, the fewest zero bits that leave
      room for the length, and the bit length as a 64-bit big-endian number. */
  function ZeroCount(length: nat): (z: nat)
    ensures (length + 1 + z) % 64 == 56 && z < 64
  {
    (119 - length % 64) % 64
  }

  /** The low `k` bytes of `n`, most significant first. */
  function BigEndian(n: nat, k: nat): (b: seq<byte>)
    ensures |b| == k
  {
    if k == 0 then [] else BigEndian(n / 256, k - 1) + [n % 256]
  }

  function Zeros(n: nat): (z: seq<byte>)
    ensures |z| == n && forall i :: 0 <= i < n ==> z[i] == 0
  {
    seq(n, i => 0)
  }

  function Padding(length: nat): seq<byte> {
    [0x80] + Zeros(ZeroCount(length)) + BigEndian(8 * length, 8)
  }

  function Padded(message: seq<byte>): seq<byte> {
    message + Padding(|message|)
  }

  /** FIPS 180-4 section 6.2.2 over the padding of section 5.1.1. */
  function Digest(message: seq<byte>): seq<byte> {
    PaddedFacts(message);
    WordsToBytes(HashBlocks(Padded(message), |Padded(message)| / 64))
  }

  lemma PaddedFacts(message: seq<byte>)
    ensures |Padded(message)| == |message| + 9 + ZeroCount(|message|)
    ensures |Padded(message)| % 64 == 0
    ensures |Padded(message)| / 64 * 64 == |Padded(message)|
  {
    hide BigEndian, Zeros, ZeroCount;
  }

  /** The padded length is the least multiple of 64 with room for the marker byte and the length. */
  lemma PaddedLengthIsLeast(message: seq<byte>, other: nat)
    requires other % 64 == 0 && other >= |message| + 9
    ensures |Padded(message)| % 64 == 0
    ensures |message| + 9 <= |Padded(message)| <= other
  {
    hide Padded, ZeroCount;
    PaddedFacts(message);
    LeastMultiple(|message| + 9, ZeroCount(|message|), other);
  }

  lemma LeastMultiple(n: nat, z: nat, other: nat)
    requires (n + z) % 64 == 0 && z < 64 && other % 64 == 0 && n <= other
    ensures n + z <= other
  {
    var a, b := (n + z) / 64, other / 64;
    assert 64 * a == n + z && 64 * b == other && 64 * a < 64 * b + 64;
  }

  lemma {:induction false} BigEndianInjective(m: nat, n: nat, k: nat)
    requires m < Power256(k) && n < Power256(k)
    requires BigEndian(m, k) == BigEndian(n, k)
    ensures m == n
  {
    if k > 0 {
      var bm, bn := BigEndian(m, k), BigEndian(n, k);
      assert bm[..k - 1] == BigEndian(m / 256, k - 1) && bm[k - 1] == m % 256;
      assert bn[..k - 1] == BigEndian(n / 256, k - 1) && bn[k - 1] == n % 256;
      BigEndianInjective(m / 256, n / 256, k - 1);
    }
  }

  function Power256(k: nat): nat {
    if k == 0 then 1 else 256 * Power256(k - 1)
  }

  /** No two messages have the same padded form. */
  lemma PaddedInjective(m1: seq<byte>, m2: seq<byte>)
    requires |m1| < TWO_POW_53 && |m2| < TWO_POW_53
    requires Padded(m1) == Padded(m2)
    ensures m1 == m2
  {
    var p1, p2 := Padded(m1), Padded(m2);
    PaddedFacts(m1);
    PaddedFacts(m2);
    assert p1[|p1| - 8..] == BigEndian(8 * |m1|, 8);
    assert p2[|p2| - 8..] == BigEndian(8 * |m2|, 8);
    assert Power256(8) == 0x1_0000_0000_0000_0000;
    BigEndianInjective(8 * |m1|, 8 * |m2|, 8);
    assert p1[..|m1|] == m1 && p2[..|m2|] == m2;
  }

  // ---------------------------------------------------------------- the code

  /** `pad`. The padded buffer must itself be a legal typed array. */
  method Pad(data: array<byte>) returns (padded: array<byte>)
    requires data.Length + 72 < TWO_POW_53
    ensures fresh(padded)
    ensures padded[..] == Padded(data[..])
  {
    hide BigEndian, Zeros, Padding, ZeroCount, Padded, TotalLength;
    var bitLength := data.Length * 8;
    var total := TotalLength(data.Length);
    TotalIsPadded(data.Length);
    padded := CopyWithMarker(data, total);
    ghost var start := padded[..total - 8];
    PaddedStart(data[..], start, ZeroCount(data.Length));
    PutLength(padded, total - 8, bitLength);
  }

  /** The bit length in the last eight bytes, as two 32-bit halves. */
  method PutLength(padded: array<byte>, at: nat, bitLength: nat)
    requires at + 8 == padded.Length && bitLength < TWO_POW_32 * TWO_POW_32
    modifies padded
    ensures padded[..] == old(padded[..at]) + BigEndian(bitLength, 8)
  {
    hide BigEndian;
    var high, low := bitLength / TWO_POW_32, bitLength % TWO_POW_32;
    ghost var start := padded[..at];
    PutWord(padded, at, high);
    assert padded[..at + 4] == start + BigEndian(high, 4);
    PutWord(padded, at + 4, low);
    LengthBytes(bitLength);
    assert padded[..] == start + (BigEndian(high, 4) + BigEndian(low, 4));
  }

  /** `padded.set(data)` on a zeroed buffer, and the one bit behind it. */
  method CopyWithMarker(data: array<byte>, total: nat) returns (padded: array<byte>)
    requires data.Length < total
    ensures fresh(padded) && padded.Length == total
    ensures padded[..data.Length] == data[..] && padded[data.Length] == 0x80
    ensures forall i :: data.Length < i < total ==> padded[i] == 0
  {
    padded := new byte[total](i => 0);
    forall i | 0 <= i < data.Length {
      padded[i] := data[i];
    }
    padded[data.Length] := 0x80;
  }

  /** The length `pad` allocates. */
  function TotalLength(length: nat): nat {
    var withOne := length + 1;
    withOne + ((64 - ((withOne + 8) % 64)) % 64) + 8
  }

  lemma TotalIsPadded(length: nat)
    ensures TotalLength(length) == length + 9 + ZeroCount(length)
  {
    var r := length % 64;
    assert (length + 9) % 64 == if r < 55 then r + 9 else r - 55;
  }

  lemma PaddedStart(message: seq<byte>, start: seq<byte>, count: nat)
    requires count == ZeroCount(|message|) && |start| == |message| + 1 + count
    requires start[..|message|] == message && start[|message|] == 0x80
    requires forall i :: |message| < i < |start| ==> start[i] == 0
    ensures start + BigEndian(8 * |message|, 8) == Padded(message)
  {
    hide BigEndian, ZeroCount, Zeros;
    var length := BigEndian(8 * |message|, 8);
    var zeros := Zeros(count);
    assert start[|message| + 1..] == zeros;
    assert start == start[..|message|] + [start[|message|]] + start[|message| + 1..];
    assert message + [0x80] + zeros + length == message + ([0x80] + zeros + length);
  }

  /** Four lines of `pad`: the bytes of a 32-bit number, most significant first. */
  method PutWord(padded: array<byte>, at: nat, n: word)
    requires at + 4 <= padded.Length
    modifies padded
    ensures padded[..] == old(padded[..at]) + BigEndian(n, 4) + old(padded[at + 4..])
  {
    hide BigEndian, And, Shr;
    MaskedBytes(n);
    padded[at] := And(Shr(n, 24), 0xff);
    padded[at + 1] := And(Shr(n, 16), 0xff);
    padded[at + 2] := And(Shr(n, 8), 0xff);
    padded[at + 3] := And(n, 0xff);
    FourBytes(n);
  }

  /** `n >>> k` and the eight-bit mask, as arithmetic. */
  lemma MaskedByte(n: word, k: nat)
    ensures And(Shr(n, k), 0xff) == n / Pow2(k) % 0x100
  {
    Pow2Of32();
    assert Pow2(8) == 0x100;
    ShiftRightDivides(n, k);
    MaskIsMod(Shr(n, k), 8, 32);
  }

  lemma MaskedBytes(n: word)
    ensures And(Shr(n, 24), 0xff) == n / 0x100_0000 % 256
    ensures And(Shr(n, 16), 0xff) == n / 0x1_0000 % 256
    ensures And(Shr(n, 8), 0xff) == n / 0x100 % 256
    ensures And(n, 0xff) == n % 256
  {
    hide And, Pow2;
    PowersOfBytes();
    MaskedByte(n, 24);
    MaskedByte(n, 16);
    MaskedByte(n, 8);
    MaskedByte(n, 0);
    assert Shr(n, 0) == n;
    assert Pow2(0) == 1 by { PowerOfZero(); }
  }

  lemma PowerOfZero()
    ensures Pow2(0) == 1
  {
  }

  lemma LastByte(n: nat, k: nat)
    ensures BigEndian(n, k + 1) == BigEndian(n / 256, k) + [n % 256] && BigEndian(n, 0) == []
  {
  }

  lemma FourBytes(n: nat)
    ensures BigEndian(n, 4) == [n / 0x100_0000 % 256, n / 0x1_0000 % 256, n / 0x100 % 256, n % 256]
  {
    hide BigEndian;
    LastByte(n, 3);
    LastByte(n / 0x100, 2);
    LastByte(n / 0x1_0000, 1);
    LastByte(n / 0x100_0000, 0);
    assert n / 0x100 / 0x100 == n / 0x1_0000 && n / 0x1_0000 / 0x100 == n / 0x100_0000;
    assert BigEndian(n / 0x100_0000, 1) == [n / 0x100_0000 % 256];
    assert BigEndian(n / 0x1_0000, 2) == [n / 0x100_0000 % 256, n / 0x1_0000 % 256];
    assert BigEndian(n / 0x100, 3) == [n / 0x100_0000 % 256, n / 0x1_0000 % 256, n / 0x100 % 256];
  }

  /** The two 32-bit halves, written separately, are the 64-bit number. */
  lemma LengthBytes(n: nat)
    ensures BigEndian(n, 8) == BigEndian(n / TWO_POW_32, 4) + BigEndian(n % TWO_POW_32, 4)
  {
    BigEndianSplit(n, n / TWO_POW_32, n % TWO_POW_32, 4, 4);
  }

  lemma {:induction false} BigEndianSplit(n: nat, high: nat, low: nat, j: nat, k: nat)
    requires n == high * Power256(k) + low && low < Power256(k)
    ensures BigEndian(n, j + k) == BigEndian(high, j) + BigEndian(low, k)
  {
    if k == 0 {
      assert n == high;
    } else {
      var p := Power256(k - 1);
      assert n == 256 * (high * p) + low;
      assert n / 256 == high * p + low / 256 && n % 256 == low % 256;
      BigEndianSplit(n / 256, high, low / 256, j, k - 1);
    }
  }

  lemma PowersOfBytes()
    ensures Pow2(8) == 0x100 && Pow2(16) == 0x1_0000 && Pow2(24) == 0x100_0000 && Pow2(32) == 0x1_0000_0000
  {
    assert Pow2(8) == 0x100;
    Pow2Adds(8, 8);
    Pow2Adds(16, 8);
    Pow2Of32();
  }

  lemma ShlByte(b: byte, k: nat)
    requires k == 8 || k == 16 || k == 24
    ensures Shl(b, k) == b * Pow2(k)
  {
    PowersOfBytes();
    ShiftLeftMultiplies(b, k);
  }

  lemma OrByte(high: nat, low: word, k: nat, p: nat)
    requires k <= 32 && p == Pow2(k) && low < p && high * p + low < 0x1_0000_0000
    ensures Or(high * p, low) == high * p + low
  {
    Pow2Of32();
    OrIsSum(high, low, k, 32);
  }

  /** The shifts and disjunctions that assemble a word compute its big-endian value. */
  lemma ShiftedOr(b0: byte, b1: byte, b2: byte, b3: byte)
    ensures Or(Or(Or(Shl(b0, 24), Shl(b1, 16)), Shl(b2, 8)), b3) == BigEndianWord(b0, b1, b2, b3)
  {
    hide Or, Shl, Pow2;
    PowersOfBytes();
    ShlByte(b0, 24);
    ShlByte(b1, 16);
    ShlByte(b2, 8);
    var s1: nat := 0x100 * b0 + b1;
    var s2: nat := 0x100 * s1 + b2;
    OrByte(b0, 0x1_0000 * b1, 24, 0x100_0000);
    OrByte(s1, 0x100 * b2, 16, 0x1_0000);
    OrByte(s2, b3, 8, 0x100);
  }

  /** The first schedule loop: the words of the block. */
  method LoadBlock(padded: array<byte>, offset: nat, schedule: array<word>)
    requires offset % 64 == 0 && offset + 64 <= padded.Length
    requires schedule.Length == 64
    modifies schedule
    ensures schedule[..16] == BlockWords(padded[..], offset / 64)
  {
    for index := 0 to 16
      invariant forall t :: 0 <= t < index ==> schedule[t] == BlockWords(padded[..], offset / 64)[t]
    {
      var base := offset + index * 4;
      ShiftedOr(padded[base], padded[base + 1], padded[base + 2], padded[base + 3]);
      schedule[index] :=
        Or(Or(Or(Shl(padded[base], 24), Shl(padded[base + 1], 16)), Shl(padded[base + 2], 8)), padded[base + 3]);
    }
  }

  /** The second schedule loop, over the buffer itself. */
  method ExpandSchedule(schedule: array<word>)
    requires schedule.Length == 64
    modifies schedule
    ensures schedule[..16] == old(schedule[..16])
    ensures forall t :: 0 <= t < 64 ==> schedule[t] == ScheduleWord(schedule[..16], t)
  {
    hide SmallSigma0, SmallSigma1, Plus, ToUint32, Sum4;
    ghost var block := schedule[..16];
    for index := 16 to 64
      invariant schedule[..16] == block
      invariant forall t :: 0 <= t < index ==> schedule[t] == ScheduleWord(block, t)
    {
      var s0 := SmallSigma0(schedule[index - 15]);
      var s1 := SmallSigma1(schedule[index - 2]);
      OneReductionOf4(s1, schedule[index - 7], s0, schedule[index - 16]);
      schedule[index] := ToUint32(Sum4(schedule[index - 16], s0, schedule[index - 7], s1));
    }
  }

  /** The body of the round loop: the eight variables are rotated one after another. */
  method RoundStep(v: Working, k: word, w: word) returns (r: Working)
    ensures r == Round(v, k, w)
  {
    hide BigSigma0, BigSigma1, Ch, Maj, Plus, ToUint32, Sum2, Sum5;
    var a, b, c, d, e, f, g, h := v.a, v.b, v.c, v.d, v.e, v.f, v.g, v.h;
    var S1 := BigSigma1(e);
    var ch := Ch(e, f, g);
    OneReductionOf5(h, S1, ch, k, w);
    var temp1 := ToUint32(Sum5(h, S1, ch, k, w));
    var S0 := BigSigma0(a);
    var maj := Maj(a, b, c);
    OneReductionOf2(S0, maj);
    var temp2 := ToUint32(Sum2(S0, maj));
    h := g;
    g := f;
    f := e;
    OneReductionOf2(d, temp1);
    e := ToUint32(Sum2(d, temp1));
    d := c;
    c := b;
    b := a;
    OneReductionOf2(temp1, temp2);
    a := ToUint32(Sum2(temp1, temp2));
    r := Working(a, b, c, d, e, f, g, h);
  }

  /** The round loop. */
  method RunRounds(start: Working, schedule: array<word>, ghost block: seq<word>) returns (v: Working)
    requires schedule.Length == 64 && |block| == 16
    requires forall t :: 0 <= t < 64 ==> schedule[t] == ScheduleWord(block, t)
    ensures v == Rounds(start, block, 64)
  {
    v := start;
    for index := 0 to 64
      invariant v == Rounds(start, block, index)
    {
      v := RoundStep(v, ROUND_CONSTANTS[index], schedule[index]);
    }
  }

  /** The state is updated in place, one word after another. */
  method UpdateState(state: array<word>, v: Working)
    requires state.Length == 8
    modifies state
    ensures state[..] == AddWorking(old(state[..]), v)
  {
    hide Plus, ToUint32, Sum2;
    ghost var s := state[..];
    OneReductionOf2(s[0], v.a);
    OneReductionOf2(s[1], v.b);
    OneReductionOf2(s[2], v.c);
    OneReductionOf2(s[3], v.d);
    OneReductionOf2(s[4], v.e);
    OneReductionOf2(s[5], v.f);
    OneReductionOf2(s[6], v.g);
    OneReductionOf2(s[7], v.h);
    state[0] := ToUint32(Sum2(state[0], v.a));
    state[1] := ToUint32(Sum2(state[1], v.b));
    state[2] := ToUint32(Sum2(state[2], v.c));
    state[3] := ToUint32(Sum2(state[3], v.d));
    state[4] := ToUint32(Sum2(state[4], v.e));
    state[5] := ToUint32(Sum2(state[5], v.f));
    state[6] := ToUint32(Sum2(state[6], v.g));
    state[7] := ToUint32(Sum2(state[7], v.h));
  }

  /** The loop body of `sha256Bytes`: one block. */
  method CompressBlock(padded: array<byte>, offset: nat, state: array<word>, schedule: array<word>)
    requires offset % 64 == 0 && offset + 64 <= padded.Length
    requires state.Length == 8 && schedule.Length == 64 && state != schedule
    modifies state, schedule
    ensures state[..] == Compress(old(state[..]), BlockWords(padded[..], offset / 64))
  {
    hide AddWorking, Rounds, ScheduleWord, BigEndianWord;
    LoadBlock(padded, offset, schedule);
    ExpandSchedule(schedule);
    var start := Working(state[0], state[1], state[2], state[3], state[4], state[5], state[6], state[7]);
    var v := RunRounds(start, schedule, schedule[..16]);
    UpdateState(state, v);
  }

  lemma EmittedBytes(n: word)
    ensures And(Shr(n, 24), 0xff) == ByteOfWord(n, 0) && And(Shr(n, 16), 0xff) == ByteOfWord(n, 1)
    ensures And(Shr(n, 8), 0xff) == ByteOfWord(n, 2) && And(n, 0xff) == ByteOfWord(n, 3)
  {
    hide And, Shr;
    MaskedBytes(n);
  }

  /** The closing loop: the state, most significant byte first. */
  method EmitDigest(state: array<word>) returns (digest: array<byte>)
    requires state.Length == 8
    ensures fresh(digest) && digest[..] == WordsToBytes(state[..])
  {
    hide And, Shr, ByteOfWord;
    digest := new byte[32](i => 0);
    for index := 0 to 8
      invariant forall i :: 0 <= i < 4 * index ==> digest[i] == ByteOfWord(state[i / 4], i % 4)
    {
      EmittedBytes(state[index]);
      digest[index * 4] := And(Shr(state[index], 24), 0xff);
      digest[index * 4 + 1] := And(Shr(state[index], 16), 0xff);
      digest[index * 4 + 2] := And(Shr(state[index], 8), 0xff);
      digest[index * 4 + 3] := And(state[index], 0xff);
    }
  }

  /** `sha256Bytes`. */
  method Sha256Bytes(data: array<byte>) returns (digest: array<byte>)
    requires data.Length + 72 < TWO_POW_53
    ensures fresh(digest)
    ensures digest[..] == Digest(data[..])
  {
    hide Compress, ZeroCount, ByteOfWord, BlockWords, Padding;
    var padded := Pad(data);
    ghost var bytes := padded[..];
    PaddedFacts(data[..]);
    var state := new word[8](i requires 0 <= i < 8 => INITIAL_STATE[i]);
    var schedule := new word[64](i => 0);
    var offset := 0;
    assert state[..] == INITIAL_STATE;
    while offset < padded.Length
      invariant offset % 64 == 0 && offset <= padded.Length && padded[..] == bytes
      invariant state[..] == HashBlocks(bytes, offset / 64)
    {
      CompressBlock(padded, offset, state, schedule);
      offset := offset + 64;
    }
    digest := EmitDigest(state);
  }
}
