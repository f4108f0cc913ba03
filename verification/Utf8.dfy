/** The UTF-8 encoder of miniprogram/lib/sha256.ts, against RFC 3629. */
module Utf8 {
  import opened Bits
  import opened Text

  /** The replacement of a lone surrogate. */
  function Scrub(c: codePoint): codePoint {
    if Surrogate(c) then 0xfffd else c
  }

  function ScrubAll(cs: seq<codePoint>): (r: seq<codePoint>)
    ensures |r| == |cs|
  {
    seq(|cs|, i requires 0 <= i < |cs| => Scrub(cs[i]))
  }

  /** No lone surrogate. */
  predicate WellFormed(s: text) {
    forall i :: 0 <= i < |CodePoints(s)| ==> !Surrogate(CodePoints(s)[i])
  }

  /** The encoding of one scalar value (RFC 3629 section 3). */
  function Utf8Of(c: codePoint): (b: seq<byte>)
    ensures 1 <= |b| <= 4
  {
    if c < 0x80 then [c]
    else if c < 0x800 then [0xc0 + c / 0x40, 0x80 + c % 0x40]
    else if c < 0x1_0000 then [0xe0 + c / 0x1000, 0x80 + c / 0x40 % 0x40, 0x80 + c % 0x40]
    else [0xf0 + c / 0x4_0000, 0x80 + c / 0x1000 % 0x40, 0x80 + c / 0x40 % 0x40, 0x80 + c % 0x40]
  }

  function Utf8OfAll(cs: seq<codePoint>): seq<byte> {
    if |cs| == 0 then [] else Utf8Of(cs[0]) + Utf8OfAll(cs[1..])
  }

  /** The bytes of a string: every code point, with lone surrogates replaced. */
  function Utf8(s: text): seq<byte> {
    Utf8OfAll(ScrubAll(CodePoints(s)))
  }

  // ---------------------------------------------------------------- RFC 3629 section 4

  predicate Tail(b: byte) { 0x80 <= b <= 0xbf }

  /** The length of the UTF8-char at the head of `b`, 0 if there is none. The rules UTF8-1 to UTF8-4. */
  function HeadLength(b: seq<byte>): (n: nat)
    ensures n <= 4 && n <= |b|
  {
    if |b| >= 1 && b[0] <= 0x7f then 1
    else if |b| >= 2 && 0xc2 <= b[0] <= 0xdf && Tail(b[1]) then 2
    else if |b| >= 3 && b[0] == 0xe0 && 0xa0 <= b[1] <= 0xbf && Tail(b[2]) then 3
    else if |b| >= 3 && 0xe1 <= b[0] <= 0xec && Tail(b[1]) && Tail(b[2]) then 3
    else if |b| >= 3 && b[0] == 0xed && 0x80 <= b[1] <= 0x9f && Tail(b[2]) then 3
    else if |b| >= 3 && 0xee <= b[0] <= 0xef && Tail(b[1]) && Tail(b[2]) then 3
    else if |b| >= 4 && b[0] == 0xf0 && 0x90 <= b[1] <= 0xbf && Tail(b[2]) && Tail(b[3]) then 4
    else if |b| >= 4 && 0xf1 <= b[0] <= 0xf3 && Tail(b[1]) && Tail(b[2]) && Tail(b[3]) then 4
    else if |b| >= 4 && b[0] == 0xf4 && 0x80 <= b[1] <= 0x8f && Tail(b[2]) && Tail(b[3]) then 4
    else 0
  }

  /** UTF8-octets = *( UTF8-char ) */
  predicate ValidUtf8(b: seq<byte>) {
    |b| == 0 || (HeadLength(b) > 0 && ValidUtf8(b[HeadLength(b)..]))
  }

  /** The six payload bits of a tail byte. */
  function Low(b: seq<byte>, i: nat): nat
    requires i < |b| && Tail(b[i])
  {
    b[i] - 0x80
  }

  function HeadValue(b: seq<byte>): codePoint
    requires HeadLength(b) > 0
  {
    var n := HeadLength(b);
    var lead: nat := b[0];
    if n == 1 then lead
    else if n == 2 then 0x40 * (lead - 0xc0) + Low(b, 1)
    else if n == 3 then 0x1000 * (lead - 0xe0) + 0x40 * Low(b, 1) + Low(b, 2)
    else 0x4_0000 * (lead - 0xf0) + 0x1000 * Low(b, 1) + 0x40 * Low(b, 2) + Low(b, 3)
  }

  /** A decoder of valid UTF-8. */
  function Decode(b: seq<byte>): seq<codePoint>
    requires ValidUtf8(b)
  {
    if |b| == 0 then [] else [HeadValue(b)] + Decode(b[HeadLength(b)..])
  }

  // ---------------------------------------------------------------- one code point

  /** A scalar value at the head of any bytes is one UTF8-char and decodes to itself. */
  lemma HeadOfUtf8(c: codePoint, rest: seq<byte>)
    requires !Surrogate(c)
    ensures HeadLength(Utf8Of(c) + rest) == |Utf8Of(c)|
    ensures HeadValue(Utf8Of(c) + rest) == c
  {
    var b := Utf8Of(c) + rest;
    assert forall i :: 0 <= i < |Utf8Of(c)| ==> b[i] == Utf8Of(c)[i];
    if c < 0x80 {
    } else if c < 0x800 {
    } else if c < 0x1_0000 {
      Digits(c);
    } else {
      Digits(c);
    }
  }

  lemma Digits(c: codePoint)
    ensures c / 0x1000 * 0x1000 + c / 0x40 % 0x40 * 0x40 + c % 0x40 == c
    ensures c / 0x4_0000 * 0x4_0000 + c / 0x1000 % 0x40 * 0x1000 + c / 0x40 % 0x40 * 0x40 + c % 0x40 == c
    ensures c / 0x1000 == c / 0x4_0000 * 0x40 + c / 0x1000 % 0x40
    ensures c / 0x40 == c / 0x1000 * 0x40 + c / 0x40 % 0x40
  {
  }

  /** One base-64 digit. */
  lemma DigitOrder(c: nat, d: nat)
    requires c < d
    ensures c / 0x40 < d / 0x40 || (c / 0x40 == d / 0x40 && c % 0x40 < d % 0x40)
  {
  }

  /** `k` is the first place at which two byte strings differ, and `a` is smaller there. */
  predicate DiffersAt(a: seq<byte>, b: seq<byte>, k: nat) {
    k < |a| && k < |b| && a[k] < b[k] && forall i :: 0 <= i < k ==> a[i] == b[i]
  }

  lemma Difference3(c: codePoint, d: codePoint) returns (k: nat)
    requires 0x800 <= c < d < 0x1_0000
    ensures DiffersAt(Utf8Of(c), Utf8Of(d), k)
  {
    Split(c);
    Split(d);
    DigitOrder(c, d);
    k := 2;
    if c / 0x40 < d / 0x40 {
      DigitOrder(c / 0x40, d / 0x40);
      k := if c / 0x1000 < d / 0x1000 then 0 else 1;
    }
  }

  lemma Difference4(c: codePoint, d: codePoint) returns (k: nat)
    requires 0x1_0000 <= c < d
    ensures DiffersAt(Utf8Of(c), Utf8Of(d), k)
  {
    Split(c);
    Split(d);
    DigitOrder(c, d);
    k := 3;
    if c / 0x40 < d / 0x40 {
      DigitOrder(c / 0x40, d / 0x40);
      k := 2;
      if c / 0x1000 < d / 0x1000 {
        DigitOrder(c / 0x1000, d / 0x1000);
        k := if c / 0x4_0000 < d / 0x4_0000 then 0 else 1;
      }
    }
  }

  lemma Difference(c: codePoint, d: codePoint) returns (k: nat)
    requires c < d
    ensures DiffersAt(Utf8Of(c), Utf8Of(d), k)
  {
    if 0x800 <= c && d < 0x1_0000 {
      k := Difference3(c, d);
    } else if 0x1_0000 <= c {
      k := Difference4(c, d);
    } else {
      DigitOrder(c, d);
      k := if 0x80 <= c && d < 0x800 && c / 0x40 == d / 0x40 then 1 else 0;
    }
  }

  lemma Split(c: nat)
    ensures c / 0x1000 == c / 0x40 / 0x40 && c / 0x4_0000 == c / 0x1000 / 0x40
  {
  }

  /** Smaller scalar values have smaller encodings, whatever follows. */
  lemma Utf8OfOrder(c: codePoint, d: codePoint, x: seq<byte>, y: seq<byte>)
    requires c < d
    ensures Less(Utf8Of(c) + x, Utf8Of(d) + y)
  {
    hide Utf8Of;
    var k := Difference(c, d);
    FirstDifference(Utf8Of(c) + x, Utf8Of(d) + y, k);
  }

  // ---------------------------------------------------------------- whole strings

  lemma {:induction false} DecodeAll(cs: seq<codePoint>)
    requires forall i :: 0 <= i < |cs| ==> !Surrogate(cs[i])
    ensures ValidUtf8(Utf8OfAll(cs))
    ensures Decode(Utf8OfAll(cs)) == cs
  {
    if |cs| > 0 {
      var rest := Utf8OfAll(cs[1..]);
      HeadOfUtf8(cs[0], rest);
      DecodeAll(cs[1..]);
      assert (Utf8Of(cs[0]) + rest)[|Utf8Of(cs[0])|..] == rest;
    }
  }

  /** Every output is valid UTF-8, even for lone surrogates, and decodes to the scrubbed code points. */
  lemma Utf8IsValid(s: text)
    ensures ValidUtf8(Utf8(s))
    ensures Decode(Utf8(s)) == ScrubAll(CodePoints(s))
  {
    DecodeAll(ScrubAll(CodePoints(s)));
  }

  /** Left inverse on well-formed strings. */
  lemma Utf8LeftInverse(s: text)
    requires WellFormed(s)
    ensures ValidUtf8(Utf8(s))
    ensures FromCodePoints(Decode(Utf8(s))) == s
  {
    Utf8IsValid(s);
    assert ScrubAll(CodePoints(s)) == CodePoints(s);
    CodePointsInverse(s);
  }

  /** Two strings have the same bytes exactly when they agree up to the replacement of lone surrogates. */
  lemma SameBytes(s: text, t: text)
    ensures Utf8(s) == Utf8(t) <==> ScrubAll(CodePoints(s)) == ScrubAll(CodePoints(t))
  {
    Utf8IsValid(s);
    Utf8IsValid(t);
  }

  lemma {:induction false} OrderOfAll(cs: seq<codePoint>, ds: seq<codePoint>)
    ensures Less(cs, ds) <==> Less(Utf8OfAll(cs), Utf8OfAll(ds))
  {
    if |cs| > 0 && |ds| > 0 {
      var x, y := Utf8OfAll(cs[1..]), Utf8OfAll(ds[1..]);
      if cs[0] < ds[0] {
        Utf8OfOrder(cs[0], ds[0], x, y);
      } else if ds[0] < cs[0] {
        Utf8OfOrder(ds[0], cs[0], y, x);
        Trichotomy(Utf8OfAll(cs), Utf8OfAll(ds));
      } else {
        var head := Utf8Of(cs[0]);
        SamePrefix(head + x, head + y, |head|);
        assert (head + x)[|head|..] == x && (head + y)[|head|..] == y;
        OrderOfAll(cs[1..], ds[1..]);
      }
    }
  }

  /** Byte order of the encodings is code-point order of the scrubbed strings: for all inputs. */
  lemma ByteOrder(s: text, t: text)
    ensures Less(Utf8(s), Utf8(t)) <==> Less(ScrubAll(CodePoints(s)), ScrubAll(CodePoints(t)))
  {
    OrderOfAll(ScrubAll(CodePoints(s)), ScrubAll(CodePoints(t)));
  }

  /** `lessCodePoint` puts `s` and `t` in the order of their bytes. */
  predicate OrdersAgree(s: text, t: text) {
    && (LessByCodePoint(s, t) <==> Less(Utf8(s), Utf8(t)))
    && (LessByCodePoint(t, s) <==> Less(Utf8(t), Utf8(s)))
  }

  /** On well-formed strings `lessCodePoint` is the byte order of the encodings. */
  lemma ByteOrderIsCodePointOrder(s: text, t: text)
    requires WellFormed(s) && WellFormed(t)
    ensures OrdersAgree(s, t)
  {
    assert ScrubAll(CodePoints(s)) == CodePoints(s);
    assert ScrubAll(CodePoints(t)) == CodePoints(t);
    ByteOrder(s, t);
    ByteOrder(t, s);
  }

  /** The string whose code points are those of `s`, scrubbed: well formed, with the bytes of `s`. */
  lemma ScrubbedString(s: text) returns (t: text)
    ensures WellFormed(t) && Utf8(t) == Utf8(s)
    ensures CodePoints(t) == ScrubAll(CodePoints(s))
  {
    var cs := ScrubAll(CodePoints(s));
    t := FromCodePoints(cs);
    FromCodePointsInverse(cs);
    assert ScrubAll(cs) == cs;
  }

  /** A string keeps the order of its bytes against every well-formed string exactly when it is
      well formed itself: with a lone surrogate it is apart from its scrubbed form, which has its bytes. */
  lemma ByteOrderIffWellFormed(s: text)
    ensures WellFormed(s) <==> forall t: text | WellFormed(t) :: OrdersAgree(s, t)
  {
    if WellFormed(s) {
      forall t: text | WellFormed(t) ensures OrdersAgree(s, t) {
        ByteOrderIsCodePointOrder(s, t);
      }
    } else {
      var t := ScrubbedString(s);
      Irreflexive(Utf8(s));
      Trichotomy(CodePoints(s), CodePoints(t));
      assert !OrdersAgree(s, t);
    }
  }

  /** A lone surrogate breaks it: two strings in code-point order with the same bytes. */
  lemma LoneSurrogateBreaksByteOrder()
    ensures LessByCodePoint([0xd800], [0xfffd]) && Utf8([0xd800]) == Utf8([0xfffd])
  {
    assert CodePoints([0xd800]) == [0xd800] && CodePoints([0xfffd]) == [0xfffd];
    assert ScrubAll([0xd800]) == ScrubAll([0xfffd]);
  }

  // ---------------------------------------------------------------- the code

  lemma Powers()
    ensures Pow2(6) == 0x40 && Pow2(12) == 0x1000 && Pow2(18) == 0x4_0000 && Pow2(32) == 0x1_0000_0000
  {
    assert Pow2(6) == 0x40;
    Pow2Adds(6, 6);
    Pow2Adds(12, 6);
    Pow2Of32();
  }

  /** `x >>> k` and the six-bit mask, as arithmetic. */
  lemma ShiftAndMask(x: word, k: nat)
    requires k == 0 || k == 6 || k == 12 || k == 18
    ensures Shr(x, k) == x / Pow2(k)
    ensures And(Shr(x, k), 0x3f) == x / Pow2(k) % 0x40
  {
    Powers();
    ShiftRightDivides(x, k);
    MaskIsMod(Shr(x, k), 6, 32);
  }

  /** A marker byte or-ed with the bits it leaves free. */
  lemma MarkerOr(high: nat, k: nat, low: word)
    requires k <= 6 && low < Pow2(k) && high * Pow2(k) + low < 256
    ensures Or(high * Pow2(k), low) == high * Pow2(k) + low
  {
    Pow2Of32();
    OrIsSum(high, low, k, 32);
  }

  /** The lines that push the bytes of a code point, with the shifts and masks they are written with. */
  function PushedBytes(c: codePoint): seq<nat> {
    if c < 0x80 then [c]
    else if c < 0x800 then [Or(0xc0, Shr(c, 6)), Or(0x80, And(c, 0x3f))]
    else if c < 0x1_0000 then [Or(0xe0, Shr(c, 12)), Or(0x80, And(Shr(c, 6), 0x3f)), Or(0x80, And(c, 0x3f))]
    else [Or(0xf0, Shr(c, 18)), Or(0x80, And(Shr(c, 12), 0x3f)), Or(0x80, And(Shr(c, 6), 0x3f)),
          Or(0x80, And(c, 0x3f))]
  }

  lemma PushedBytesAreUtf8(c: codePoint)
    ensures PushedBytes(c) == Utf8Of(c)
  {
    hide Or, And, Shr, Pow2;
    Powers();
    ShiftAndMask(c, 0);
    assert Pow2(0) == 1 && Shr(c, 0) == c by { Zeroth(c); }
    ShiftAndMask(c, 6);
    ShiftAndMask(c, 12);
    ShiftAndMask(c, 18);
    SmallPowers();
    MarkerOr(2, 6, c % 0x40);
    MarkerOr(2, 6, c / 0x40 % 0x40);
    MarkerOr(2, 6, c / 0x1000 % 0x40);
    if 0x80 <= c < 0x800 {
      MarkerOr(6, 5, c / 0x40);
    } else if 0x800 <= c < 0x1_0000 {
      MarkerOr(14, 4, c / 0x1000);
    } else if c >= 0x1_0000 {
      MarkerOr(30, 3, c / 0x4_0000);
    }
  }

  lemma Zeroth(c: word)
    ensures Pow2(0) == 1 && Shr(c, 0) == c
  {
  }

  lemma SmallPowers()
    ensures Pow2(3) == 8 && Pow2(4) == 16 && Pow2(5) == 32
  {
  }

  /** `utf8Encode` */
  method Utf8Encode(input: text) returns (bytes: seq<byte>)
    ensures bytes == Utf8(input)
  {
    hide CodePoints, ScrubAll, Utf8, Utf8Of, PushedBytes;
    bytes := [];
    var index := 0;
    while index < |input|
      invariant index <= |input| && bytes + Utf8(input[index..]) == Utf8(input)
    {
      var unit: nat := input[index];
      ghost var before, rest := bytes, input[index..];
      Utf8Step(rest);
      if HighSurrogate(unit) && index + 1 < |input| {
        var low: nat := input[index + 1];
        if LowSurrogate(low) {
          var codePoint := (unit - 0xd800) * 0x400 + (low - 0xdc00) + 0x1_0000;
          PushedBytesAreUtf8(codePoint);
          bytes := bytes + PushedBytes(codePoint);
          assert rest[2..] == input[index + 2..];
          index := index + 2;
          continue;
        }
      }
      assert !PairAt(rest, 0) && rest[1..] == input[index + 1..];
      index := index + 1;
      if Surrogate(unit) {
        bytes := bytes + [0xef, 0xbf, 0xbd];
      } else {
        PushedBytesAreUtf8(unit);
        bytes := bytes + PushedBytes(unit);
      }
    }
    assert input[index..] == [] && Utf8([]) == [] by { Utf8OfEmpty(); }
  }

  lemma Utf8OfEmpty()
    ensures Utf8([]) == []
  {
  }

  lemma Utf8Step(s: text)
    requires |s| > 0
    ensures PairAt(s, 0) ==> Utf8(s) == Utf8Of(Combine(s[0], s[1])) + Utf8(s[2..])
    ensures !PairAt(s, 0) ==> Utf8(s) == Utf8Of(Scrub(s[0])) + Utf8(s[1..])
    ensures Utf8Of(0xfffd) == [0xef, 0xbf, 0xbd]
  {
    var cs := CodePoints(s);
    assert ScrubAll(cs) == [Scrub(cs[0])] + ScrubAll(cs[1..]);
  }
}
