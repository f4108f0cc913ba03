/** JavaScript strings as sequences of UTF-16 units, and the two string orders of
    miniprogram/lib/jcs.ts. */
module Text {

  type unit = n: nat | n < 0x1_0000
  type codePoint = n: nat | n < 0x11_0000
  type text = seq<unit>

  /** Units of a string literal. */
  function Ascii(s: string): (t: text)
    requires forall i :: 0 <= i < |s| ==> s[i] < 128 as char
    ensures |t| == |s| && forall i :: 0 <= i < |s| ==> t[i] == s[i] as nat
  {
    seq(|s|, i requires 0 <= i < |s| => s[i] as nat)
  }

  // ---------------------------------------------------------------- dictionary order

  /** Strict dictionary order: the first difference decides, and a proper prefix is smaller. */
  predicate Less(a: seq<nat>, b: seq<nat>) {
    if |b| == 0 then false
    else if |a| == 0 then true
    else if a[0] != b[0] then a[0] < b[0]
    else Less(a[1..], b[1..])
  }

  lemma {:induction false} Irreflexive(a: seq<nat>)
    ensures !Less(a, a)
  {
    if |a| > 0 {
      Irreflexive(a[1..]);
    }
  }

  lemma {:induction false} Transitive(a: seq<nat>, b: seq<nat>, c: seq<nat>)
    requires Less(a, b) && Less(b, c)
    ensures Less(a, c)
  {
    if |a| > 0 && a[0] == b[0] && b[0] == c[0] {
      Transitive(a[1..], b[1..], c[1..]);
    }
  }

  /** Exactly one of `a < b`, `a == b` and `b < a` holds. */
  lemma {:induction false} Trichotomy(a: seq<nat>, b: seq<nat>)
    ensures a == b <==> !Less(a, b) && !Less(b, a)
    ensures !(Less(a, b) && Less(b, a))
  {
    if |a| > 0 && |b| > 0 && a[0] == b[0] {
      Trichotomy(a[1..], b[1..]);
      assert a == [a[0]] + a[1..] && b == [b[0]] + b[1..];
    } else if a == b {
      Irreflexive(a);
    }
  }

  /** A common prefix does not matter. */
  lemma {:induction false} SamePrefix(a: seq<nat>, b: seq<nat>, k: nat)
    requires k <= |a| && k <= |b| && forall i :: 0 <= i < k ==> a[i] == b[i]
    ensures Less(a, b) == Less(a[k..], b[k..])
  {
    if k > 0 {
      SamePrefix(a[1..], b[1..], k - 1);
      assert a[1..][k - 1..] == a[k..] && b[1..][k - 1..] == b[k..];
    } else {
      assert a[0..] == a && b[0..] == b;
    }
  }

  lemma FirstDifference(a: seq<nat>, b: seq<nat>, k: nat)
    requires k < |a| && k < |b| && a[k] != b[k] && forall i :: 0 <= i < k ==> a[i] == b[i]
    ensures Less(a, b) <==> a[k] < b[k]
  {
    SamePrefix(a, b, k);
  }

  /** In texts cut at one place, the front decides, and the rest decides between equal fronts. */
  lemma {:induction false} LessConcat(a: seq<nat>, b: seq<nat>, c: seq<nat>, d: seq<nat>)
    requires |a| == |b|
    ensures Less(a + c, b + d) <==> Less(a, b) || (a == b && Less(c, d))
  {
    if |a| == 0 {
      assert a + c == c && b + d == d;
    } else {
      assert (a + c)[1..] == a[1..] + c && (b + d)[1..] == b[1..] + d;
      assert a == [a[0]] + a[1..] && b == [b[0]] + b[1..];
      LessConcat(a[1..], b[1..], c, d);
    }
  }

  /** `lessUTF16` */
  method LessUTF16(left: text, right: text) returns (less: bool)
    ensures less == Less(left, right)
  {
    var limit := if |left| < |right| then |left| else |right|;
    for index := 0 to limit
      invariant forall i :: 0 <= i < index ==> left[i] == right[i]
    {
      var leftUnit, rightUnit := left[index], right[index];
      if leftUnit != rightUnit {
        FirstDifference(left, right, index);
        return leftUnit < rightUnit;
      }
    }
    SamePrefix(left, right, limit);
    return |left| < |right|;
  }

  // ---------------------------------------------------------------- code points

  predicate HighSurrogate(u: nat) { 0xd800 <= u <= 0xdbff }
  predicate LowSurrogate(u: nat) { 0xdc00 <= u <= 0xdfff }
  predicate Surrogate(c: nat) { 0xd800 <= c <= 0xdfff }

  predicate PairAt(s: text, i: nat) {
    i + 1 < |s| && HighSurrogate(s[i]) && LowSurrogate(s[i + 1])
  }

  function Combine(high: unit, low: unit): codePoint
    requires HighSurrogate(high) && LowSurrogate(low)
  {
    (high - 0xd800) * 0x400 + (low - 0xdc00) + 0x1_0000
  }

  /** The code points that string iteration yields. A lone surrogate is one of its own. */
  function CodePoints(s: text): seq<codePoint> {
    if |s| == 0 then []
    else if PairAt(s, 0) then [Combine(s[0], s[1])] + CodePoints(s[2..])
    else [s[0]] + CodePoints(s[1..])
  }

  function UnitsOf(c: codePoint): text {
    if c < 0x1_0000 then [c] else [0xd800 + (c - 0x1_0000) / 0x400, 0xdc00 + (c - 0x1_0000) % 0x400]
  }

  function FromCodePoints(cs: seq<codePoint>): text {
    if |cs| == 0 then [] else UnitsOf(cs[0]) + FromCodePoints(cs[1..])
  }

  /** Iterating a string and writing the code points down again gives the string back. */
  lemma {:induction false} CodePointsInverse(s: text)
    ensures FromCodePoints(CodePoints(s)) == s
  {
    if |s| > 0 {
      if PairAt(s, 0) {
        CodePointsInverse(s[2..]);
        var c := Combine(s[0], s[1]);
        assert CodePoints(s)[1..] == CodePoints(s[2..]);
        assert (c - 0x1_0000) / 0x400 == s[0] - 0xd800 && (c - 0x1_0000) % 0x400 == s[1] - 0xdc00;
        assert s == [s[0], s[1]] + s[2..];
      } else {
        CodePointsInverse(s[1..]);
        assert CodePoints(s)[1..] == CodePoints(s[1..]);
        assert s == [s[0]] + s[1..];
      }
    }
  }

  /** Writing down code points without surrogates and iterating the string gives them back. */
  lemma {:induction false} FromCodePointsInverse(cs: seq<codePoint>)
    requires forall i :: 0 <= i < |cs| ==> !Surrogate(cs[i])
    ensures CodePoints(FromCodePoints(cs)) == cs
  {
    if |cs| > 0 {
      FromCodePointsInverse(cs[1..]);
      var units, rest := UnitsOf(cs[0]), FromCodePoints(cs[1..]);
      assert (units + rest)[|units|..] == rest;
    }
  }

  lemma CodePointsInjective(a: text, b: text)
    requires CodePoints(a) == CodePoints(b)
    ensures a == b
  {
    CodePointsInverse(a);
    CodePointsInverse(b);
  }

  predicate LessByCodePoint(a: text, b: text) {
    Less(CodePoints(a), CodePoints(b))
  }

  /** Code-point order is a strict total order on all strings, lone surrogates included. */
  lemma CodePointOrder(a: text, b: text, c: text)
    ensures a == b <==> !LessByCodePoint(a, b) && !LessByCodePoint(b, a)
    ensures !(LessByCodePoint(a, b) && LessByCodePoint(b, a))
    ensures LessByCodePoint(a, b) && LessByCodePoint(b, c) ==> LessByCodePoint(a, c)
  {
    Trichotomy(CodePoints(a), CodePoints(b));
    if CodePoints(a) == CodePoints(b) {
      CodePointsInjective(a, b);
    }
    if LessByCodePoint(a, b) && LessByCodePoint(b, c) {
      Transitive(CodePoints(a), CodePoints(b), CodePoints(c));
    }
  }

  /** `Array.from(s)`, by the string iterator. */
  method Runes(s: text) returns (runes: seq<codePoint>)
    ensures runes == CodePoints(s)
  {
    hide Combine;
    runes := [];
    var index := 0;
    while index < |s|
      invariant index <= |s| && runes + CodePoints(s[index..]) == CodePoints(s)
    {
      ghost var rest := s[index..];
      if PairAt(s, index) {
        assert PairAt(rest, 0) && rest[2..] == s[index + 2..];
        runes := runes + [Combine(s[index], s[index + 1])];
        index := index + 2;
      } else {
        assert !PairAt(rest, 0) && rest[1..] == s[index + 1..];
        runes := runes + [s[index]];
        index := index + 1;
      }
    }
    assert s[index..] == [];
  }

  /** `lessCodePoint` */
  method LessCodePoint(left: text, right: text) returns (less: bool)
    ensures less == LessByCodePoint(left, right)
  {
    var leftRunes := Runes(left);
    var rightRunes := Runes(right);
    var limit := if |leftRunes| < |rightRunes| then |leftRunes| else |rightRunes|;
    for index := 0 to limit
      invariant forall i :: 0 <= i < index ==> leftRunes[i] == rightRunes[i]
    {
      var leftCode, rightCode := leftRunes[index], rightRunes[index];
      if leftCode != rightCode {
        FirstDifference(leftRunes, rightRunes, index);
        return leftCode < rightCode;
      }
    }
    SamePrefix(leftRunes, rightRunes, limit);
    return |leftRunes| < |rightRunes|;
  }

  /** Without surrogates the two orders are one order. */
  lemma {:induction false} NoSurrogates(s: text)
    requires forall i :: 0 <= i < |s| ==> !Surrogate(s[i])
    ensures CodePoints(s) == s
  {
    if |s| > 0 {
      NoSurrogates(s[1..]);
    }
  }

  /** U+1F600 against U+E000: the pair on which the two orders disagree. */
  lemma OrdersDisagree()
    ensures Less([0xd83d, 0xde00], [0xe000]) && LessByCodePoint([0xe000], [0xd83d, 0xde00])
  {
    assert CodePoints([0xe000]) == [0xe000];
    assert CodePoints([0xd83d, 0xde00]) == [0x1f600];
  }
}
