/** The protocol counters of miniprogram/lib/bignum.ts: decimal strings compared without converting
    them to numbers. */
module Bignum {
  import opened Text
  import opened Jcs
  import opened JsonParse
  import opened Trimming

  const MINUS: unit := 45
  const ZERO: unit := 48

  // ---------------------------------------------------------------- trim

  /** The white space and line terminators `String.prototype.trim` removes. */
  predicate IsBlank(u: nat) {
    9 <= u <= 13 || u == 32 || u == 0xa0 || u == 0x1680 || 0x2000 <= u <= 0x200a
    || u == 0x2028 || u == 0x2029 || u == 0x202f || u == 0x205f || u == 0x3000 || u == 0xfeff
  }

  function Blank(): unit -> bool {
    (u: unit) => IsBlank(u)
  }

  /** The white space and line terminators of the language, one by one. */
  lemma BlankUnits(u: nat)
    ensures IsBlank(u) <==>
      u in {9, 10, 11, 12, 13, 0x20, 0xa0, 0x1680, 0x2000, 0x2001, 0x2002, 0x2003, 0x2004, 0x2005, 0x2006, 0x2007,
            0x2008, 0x2009, 0x200a, 0x2028, 0x2029, 0x202f, 0x205f, 0x3000, 0xfeff}
  {
  }

  function Trim(s: text): text {
    TrimBy(s, Blank())
  }

  // ---------------------------------------------------------------- the source's functions

  predicate Negative(s: text) {
    |Trim(s)| > 0 && Trim(s)[0] == MINUS
  }

  /** `stripSign` */
  function StripSign(s: text): text {
    if Negative(s) then Trim(s)[1..] else Trim(s)
  }

  function StripZeros(t: text): text {
    if |t| > 0 && t[0] == ZERO then StripZeros(t[1..]) else t
  }

  /** `t.replace(/^0+/, '') || '0'` */
  function Significant(t: text): (r: text)
    ensures |r| > 0
  {
    if |StripZeros(t)| == 0 then [ZERO] else StripZeros(t)
  }

  /** `compareMagnitude` */
  function CompareMagnitude(a: text, b: text): int {
    var left, right := Significant(a), Significant(b);
    if |left| != |right| then (if |left| < |right| then -1 else 1)
    else if left == right then 0
    else if Less(left, right) then -1 else 1
  }

  /** `compareDecimalString` */
  function CompareDecimal(left: text, right: text): int {
    if Negative(left) != Negative(right) then (if Negative(left) then -1 else 1)
    else
      var magnitude := CompareMagnitude(StripSign(left), StripSign(right));
      if Negative(left) then -magnitude else magnitude
  }

  /** `isDecimalUint` */
  predicate IsDecimalUint(s: text) {
    var t := Trim(s);
    |t| > 0 && AllDigits(t) && (t[0] == ZERO ==> |t| == 1)
  }

  /** `atLeast` */
  predicate AtLeast(revision: text, minimum: text) {
    CompareDecimal(revision, minimum) >= 0
  }

  // ---------------------------------------------------------------- the integer a text stands for

  predicate AllDigits(t: text) {
    forall i :: 0 <= i < |t| ==> IsDigit(t[i])
  }

  /** An optional minus sign and digits, between blanks; no digits at all count as zero. */
  predicate IsDecimal(s: text) {
    AllDigits(StripSign(s))
  }

  function Value(s: text): int
    requires IsDecimal(s)
  {
    var magnitude: int := DigitsValue(StripSign(s));
    if Negative(s) then -magnitude else magnitude
  }

  /** Digits between white space are read as their number, and behind a minus sign as its opposite. */
  lemma TextValues(before: text, digits: text, after: text)
    requires AllBlank(before, Blank()) && AllBlank(after, Blank()) && AllDigits(digits) && |digits| > 0
    ensures var s := before + digits + after; IsDecimal(s) && Value(s) == DigitsValue(digits)
    ensures var s := before + (Ascii("-") + digits) + after; IsDecimal(s) && Value(s) == 0 - DigitsValue(digits)
  {
    hide DigitsValue;
    assert IsDigit(digits[0]) && IsDigit(digits[|digits| - 1]);
    TrimSurrounded(before, digits, after, Blank());
    TrimSurrounded(before, Ascii("-") + digits, after, Blank());
    assert (Ascii("-") + digits)[1..] == digits;
  }

  function Sign(n: int): int {
    if n < 0 then -1 else if n == 0 then 0 else 1
  }

  function Pow10(n: nat): (p: nat)
    ensures p > 0
  {
    if n == 0 then 1 else 10 * Pow10(n - 1)
  }

  lemma {:induction false} DigitsBelow(t: text)
    requires AllDigits(t)
    ensures DigitsValue(t) < Pow10(|t|)
  {
    if |t| > 0 {
      DigitsBelow(t[..|t| - 1]);
      assert IsDigit(t[|t| - 1]);
    }
  }

  lemma {:induction false} DigitsAbove(t: text)
    requires AllDigits(t) && |t| > 0 && t[0] != ZERO
    ensures DigitsValue(t) >= Pow10(|t| - 1)
  {
    assert IsDigit(t[0]) && IsDigit(t[|t| - 1]);
    if |t| > 1 {
      DigitsAbove(t[..|t| - 1]);
    }
  }

  lemma {:induction false} LeadingZero(t: text)
    requires AllDigits(t) && |t| > 0 && t[0] == ZERO
    ensures AllDigits(t[1..]) && DigitsValue(t[1..]) == DigitsValue(t)
  {
    if |t| > 1 {
      var init := t[..|t| - 1];
      LeadingZero(init);
      assert t[1..][..|t| - 2] == init[1..];
    }
  }

  /** Dropping leading zeros keeps the value. */
  lemma {:induction false} StripZerosValue(t: text)
    requires AllDigits(t)
    ensures AllDigits(StripZeros(t)) && DigitsValue(StripZeros(t)) == DigitsValue(t)
    ensures |StripZeros(t)| > 0 ==> StripZeros(t)[0] != ZERO
  {
    if |t| > 0 && t[0] == ZERO {
      LeadingZero(t);
      StripZerosValue(t[1..]);
    }
  }

  lemma SignificantValue(t: text)
    requires AllDigits(t)
    ensures AllDigits(Significant(t)) && DigitsValue(Significant(t)) == DigitsValue(t)
    ensures Significant(t)[0] == ZERO ==> |Significant(t)| == 1
  {
    StripZerosValue(t);
    assert DigitsValue([ZERO]) == 0 && DigitsValue([]) == 0;
  }

  /** On digit texts of one length, dictionary order is numeric order. */
  lemma {:induction false} SameLengthOrder(a: text, b: text)
    requires AllDigits(a) && AllDigits(b) && |a| == |b|
    ensures Less(a, b) <==> DigitsValue(a) < DigitsValue(b)
    ensures a == b <==> DigitsValue(a) == DigitsValue(b)
  {
    var n := |a|;
    if n > 0 {
      var a', b', x, y := a[..n - 1], b[..n - 1], a[n - 1], b[n - 1];
      SameLengthOrder(a', b');
      LessConcat(a', b', [x], [y]);
      assert Less([x], [y]) <==> x < y;
      assert a == a' + [x] && b == b' + [y];
      assert IsDigit(x) && IsDigit(y);
    }
  }

  /** Without leading zeros, a longer digit text is a larger number. */
  lemma LongerIsLarger(a: text, b: text)
    requires AllDigits(a) && AllDigits(b) && |a| < |b| && b[0] != ZERO
    ensures DigitsValue(a) < DigitsValue(b)
  {
    DigitsBelow(a);
    DigitsAbove(b);
    Pow10Grows(|a|, |b| - 1);
  }

  lemma {:induction false} Pow10Grows(m: nat, n: nat)
    requires m <= n
    ensures Pow10(m) <= Pow10(n)
  {
    if m < n {
      Pow10Grows(m, n - 1);
    }
  }

  lemma MagnitudeIsSign(a: text, b: text)
    requires AllDigits(a) && AllDigits(b)
    ensures CompareMagnitude(a, b) == Sign(DigitsValue(a) - DigitsValue(b))
  {
    hide Less, DigitsValue, StripZeros;
    var left, right := Significant(a), Significant(b);
    SignificantValue(a);
    SignificantValue(b);
    if |left| < |right| {
      LongerIsLarger(left, right);
    } else if |right| < |left| {
      LongerIsLarger(right, left);
    } else {
      SameLengthOrder(left, right);
    }
  }

  /** The comparison is the sign of the difference, except between "0" and "-0". */
  lemma SignOfDifference(left: text, right: text)
    requires IsDecimal(left) && IsDecimal(right)
    ensures CompareDecimal(left, right) == Sign(Value(left) - Value(right))
       <==> !(Negative(left) != Negative(right) && Value(left) == 0 && Value(right) == 0)
  {
    hide DigitsValue, CompareMagnitude, Trim;
    MagnitudeIsSign(StripSign(left), StripSign(right));
  }

  /** "-0" is placed below "0", although both stand for zero, and a lone minus sign below no text at all. */
  lemma NegativeZero()
    ensures IsDecimal([MINUS, ZERO]) && IsDecimal([ZERO]) && Value([MINUS, ZERO]) == Value([ZERO]) == 0
    ensures CompareDecimal([MINUS, ZERO], [ZERO]) == -1 && CompareDecimal([45], []) == -1
  {
    assert Trim([45]) == [45] && Trim([]) == [];
    assert Trim([MINUS, ZERO]) == [MINUS, ZERO] && Trim([ZERO]) == [ZERO];
    assert StripSign([MINUS, ZERO]) == [ZERO] == StripSign([ZERO]);
    assert DigitsValue([ZERO]) == 10 * DigitsValue([]) + 0;
  }

  // ---------------------------------------------------------------- the order on all texts

  lemma {:induction false} CompareMagnitudeOrder(a: text, b: text, c: text)
    ensures CompareMagnitude(b, a) == -CompareMagnitude(a, b)
    ensures CompareMagnitude(a, b) == 0 <==> Significant(a) == Significant(b)
    ensures CompareMagnitude(a, b) >= 0 && CompareMagnitude(b, c) >= 0 ==> CompareMagnitude(a, c) >= 0
  {
    hide Less, Significant;
    var x, y, z := Significant(a), Significant(b), Significant(c);
    Trichotomy(x, y);
    Trichotomy(y, z);
    Trichotomy(x, z);
    if Less(z, y) && Less(y, x) {
      Transitive(z, y, x);
    }
  }

  /** `atLeast` is a total preorder on all texts; two texts tie when sign and significant part agree. */
  lemma AtLeastIsPreorder(a: text, b: text, c: text)
    ensures AtLeast(a, a)
    ensures AtLeast(a, b) || AtLeast(b, a)
    ensures AtLeast(a, b) && AtLeast(b, c) ==> AtLeast(a, c)
    ensures AtLeast(a, b) && AtLeast(b, a) <==>
            Negative(a) == Negative(b) && Significant(StripSign(a)) == Significant(StripSign(b))
  {
    hide CompareMagnitude, Significant, StripSign, Negative;
    CompareMagnitudeOrder(StripSign(a), StripSign(b), StripSign(c));
    CompareMagnitudeOrder(StripSign(c), StripSign(b), StripSign(a));
    CompareMagnitudeOrder(StripSign(a), StripSign(c), StripSign(a));
    CompareMagnitudeOrder(StripSign(a), StripSign(a), StripSign(a));
  }

  // ---------------------------------------------------------------- canonical counters

  lemma DecimalUintShape(s: text)
    requires IsDecimalUint(s)
    ensures IsDecimal(s) && !Negative(s) && StripSign(s) == Trim(s) && Significant(Trim(s)) == Trim(s)
  {
    var t := Trim(s);
    assert IsDigit(t[0]);
    if t[0] == ZERO {
      assert StripZeros(t) == StripZeros(t[1..]) == [];
      assert t == [ZERO];
    }
  }

  /** On counters `atLeast` is the numeric order, and only equal texts (up to blanks) tie. */
  lemma CountersInOrder(a: text, b: text)
    requires IsDecimalUint(a) && IsDecimalUint(b)
    ensures AtLeast(a, b) <==> DigitsValue(Trim(a)) >= DigitsValue(Trim(b))
    ensures AtLeast(a, b) && AtLeast(b, a) <==> Trim(a) == Trim(b)
  {
    hide DigitsValue, CompareMagnitude, Significant, Trim;
    DecimalUintShape(a);
    DecimalUintShape(b);
    MagnitudeIsSign(Trim(a), Trim(b));
    AtLeastIsPreorder(a, b, a);
  }

  lemma UnfoldTrim(s: text)
    ensures Trim(s) == TrimBy(s, Blank())
  {
  }

  /** Every decimal form is a counter, and needs no trimming. */
  lemma DigitsAreCounters(n: nat)
    ensures IsDecimalUint(Digits(n)) && Trim(Digits(n)) == Digits(n) && DigitsValue(Digits(n)) == n
  {
    hide Trim, Digits;
    var t := Digits(n);
    DigitsShape(n);
    assert IsDigit(t[0]) && IsDigit(t[|t| - 1]);
    var none: text := [];
    TrimSurrounded(none, t, none, Blank());
    assert none + t + none == t;
    assert Trim(t) == t by { UnfoldTrim(t); }
  }

  /** A counter is the decimal form of its value. */
  lemma CountersAreDigits(s: text)
    requires IsDecimalUint(s)
    ensures Trim(s) == Digits(DigitsValue(Trim(s)))
  {
    hide Trim, Digits, DigitsValue;
    DigitsAreCounters(DigitsValue(Trim(s)));
    OneDecimalForm(Trim(s), Digits(DigitsValue(Trim(s))));
  }

  lemma OneDecimalForm(t: text, u: text)
    requires AllDigits(t) && AllDigits(u) && |t| > 0 && |u| > 0
    requires t[0] == ZERO ==> |t| == 1
    requires u[0] == ZERO ==> |u| == 1
    requires DigitsValue(t) == DigitsValue(u)
    ensures t == u
  {
    hide DigitsValue;
    if |t| == |u| {
      SameLengthOrder(t, u);
    } else if |t| < |u| {
      LongerIsLarger(t, u);
    } else {
      LongerIsLarger(u, t);
    }
  }
}
