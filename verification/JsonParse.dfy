/** JSON.parse, which canonicalizeJSON relies on, as a recursive-descent parser, and the round trips
    between it and the canonical printer. Fractions, exponents and unsafe integers are rejected. */
module JsonParse {
  import opened Text
  import opened Jcs
  import opened Wrappers

  /** A parsed value and the text behind it. */
  type Parsed<T> = Option<(T, text)>

  predicate IsDigit(u: nat) { 48 <= u <= 57 }
  predicate IsSpace(u: nat) { u == 32 || u == 9 || u == 10 || u == 13 }

  function SkipSpace(s: text): (r: text)
    ensures |r| <= |s|
  {
    if |s| > 0 && IsSpace(s[0]) then SkipSpace(s[1..]) else s
  }

  // ---------------------------------------------------------------- numbers

  function DigitRun(s: text): (n: nat)
    ensures n <= |s|
    ensures forall i :: 0 <= i < n ==> IsDigit(s[i])
    ensures n < |s| ==> !IsDigit(s[n])
  {
    if |s| > 0 && IsDigit(s[0]) then 1 + DigitRun(s[1..]) else 0
  }

  function DigitValue(u: unit): nat
    requires IsDigit(u)
  {
    u - 48
  }

  function DigitsValue(s: text): nat
    requires forall i :: 0 <= i < |s| ==> IsDigit(s[i])
  {
    if |s| == 0 then 0 else assert IsDigit(s[|s| - 1]); 10 * DigitsValue(s[..|s| - 1]) + DigitValue(s[|s| - 1])
  }

  /** Neither a fraction nor an exponent follows. */
  predicate EndsInteger(s: text) {
    |s| == 0 || !(s[0] == 46 || s[0] == 101 || s[0] == 69)
  }

  function ParseDigits(s: text): (r: Parsed<nat>)
    ensures r.Some? ==> |r.value.1| < |s|
  {
    var n := DigitRun(s);
    if n == 0 || (n > 1 && s[0] == 48) || !EndsInteger(s[n..]) || DigitsValue(s[..n]) > MAX_SAFE_INTEGER then None
    else Some((DigitsValue(s[..n]), s[n..]))
  }

  function ParseNumber(s: text): (r: Parsed<Json>)
    ensures r.Some? ==> |r.value.1| < |s|
  {
    if |s| > 0 && s[0] == 45 then
      match ParseDigits(s[1..])
      case None => None
      case Some((n, rest)) => Some((Num(0 - (n as int)), rest))
    else
      match ParseDigits(s)
      case None => None
      case Some((n, rest)) => Some((Num(n), rest))
  }

  // ---------------------------------------------------------------- strings

  function HexValue(u: unit): Option<nat> {
    if 48 <= u <= 57 then Some(u - 48)
    else if 97 <= u <= 102 then Some(u - 87)
    else if 65 <= u <= 70 then Some(u - 55)
    else None
  }

  /** The unit behind a backslash, with the text after it. */
  function Unescape(s: text): (r: Parsed<unit>)
    ensures r.Some? ==> |r.value.1| < |s|
  {
    if |s| == 0 then None
    else if s[0] == QUOTE || s[0] == BACKSLASH || s[0] == 47 then Some((s[0], s[1..]))
    else if s[0] == 98 then Some((8, s[1..]))
    else if s[0] == 116 then Some((9, s[1..]))
    else if s[0] == 110 then Some((10, s[1..]))
    else if s[0] == 102 then Some((12, s[1..]))
    else if s[0] == 114 then Some((13, s[1..]))
    else if s[0] == 117 && |s| >= 5 then
      match (HexValue(s[1]), HexValue(s[2]), HexValue(s[3]), HexValue(s[4]))
      case (Some(a), Some(b), Some(c), Some(d)) =>
        var code: nat := 4096 * a + 256 * b + 16 * c + d;
        if code < 0x1_0000 then Some((code, s[5..])) else None
      case _ => None
    else None
  }

  /** The characters up to the closing quote. */
  function ParseChars(s: text): (r: Parsed<text>)
    ensures r.Some? ==> |r.value.1| < |s|
  {
    if |s| == 0 || s[0] < 0x20 then None
    else if s[0] == QUOTE then Some(([], s[1..]))
    else if s[0] == BACKSLASH then
      match Unescape(s[1..])
      case None => None
      case Some((u, rest)) => Prepend(u, ParseChars(rest))
    else Prepend(s[0], ParseChars(s[1..]))
  }

  function Prepend(u: unit, tail: Parsed<text>): Parsed<text> {
    match tail
    case None => None
    case Some((t, rest)) => Some(([u] + t, rest))
  }

  // ---------------------------------------------------------------- values

  predicate StartsWith(s: text, prefix: text) {
    |prefix| <= |s| && s[..|prefix|] == prefix
  }

  function ParseLiteral(s: text): (r: Parsed<Json>)
    ensures r.Some? ==> |r.value.1| < |s|
  {
    if StartsWith(s, NULL_TEXT) then Some((Null, s[4..]))
    else if StartsWith(s, Literal(true)) then Some((Bool(true), s[4..]))
    else if StartsWith(s, Literal(false)) then Some((Bool(false), s[5..]))
    else None
  }

  function ParseValue(s: text): (r: Parsed<Json>)
    ensures r.Some? ==> |r.value.1| < |s|
    decreases |s|, 2
  {
    var t := SkipSpace(s);
    if |t| == 0 then None
    else if t[0] == QUOTE then
      match ParseChars(t[1..])
      case None => None
      case Some((c, rest)) => Some((Str(c), rest))
    else if t[0] == 91 then
      var u := SkipSpace(t[1..]);
      if |u| > 0 && u[0] == 93 then Some((Arr([]), u[1..])) else ParseItems(u, [])
    else if t[0] == 123 then
      var u := SkipSpace(t[1..]);
      if |u| > 0 && u[0] == 125 then Some((Obj([]), u[1..])) else ParseMembers(u, [])
    else if t[0] == 45 || IsDigit(t[0]) then ParseNumber(t)
    else ParseLiteral(t)
  }

  function ParseItems(s: text, items: seq<Json>): (r: Parsed<Json>)
    ensures r.Some? ==> |r.value.1| < |s|
    decreases |s|, 3
  {
    match ParseValue(s)
    case None => None
    case Some((v, rest)) =>
      var t := SkipSpace(rest);
      if |t| > 0 && t[0] == 93 then Some((Arr(items + [v]), t[1..]))
      else if |t| > 0 && t[0] == 44 then ParseItems(t[1..], items + [v])
      else None
  }

  /** A repeated key overwrites the earlier value. */
  function Put(members: seq<Member>, m: Member): seq<Member> {
    if |members| == 0 then [m]
    else if members[0].key == m.key then [m] + members[1..]
    else [members[0]] + Put(members[1..], m)
  }

  function ParseMember(s: text): (r: Parsed<Member>)
    ensures r.Some? ==> |r.value.1| < |s|
    decreases |s|, 1
  {
    var t := SkipSpace(s);
    if |t| == 0 || t[0] != QUOTE then None
    else
      match ParseChars(t[1..])
      case None => None
      case Some((key, afterKey)) =>
        var u := SkipSpace(afterKey);
        if |u| == 0 || u[0] != 58 then None
        else
          match ParseValue(u[1..])
          case None => None
          case Some((v, rest)) => Some((Member(key, v), rest))
  }

  function ParseMembers(s: text, members: seq<Member>): (r: Parsed<Json>)
    ensures r.Some? ==> |r.value.1| < |s|
    decreases |s|, 3
  {
    match ParseMember(s)
    case None => None
    case Some((m, rest)) =>
      var t := SkipSpace(rest);
      if |t| > 0 && t[0] == 125 then Some((Obj(Put(members, m)), t[1..]))
      else if |t| > 0 && t[0] == 44 then ParseMembers(t[1..], Put(members, m))
      else None
  }

  /** `JSON.parse` */
  function Parse(s: text): Option<Json> {
    match ParseValue(s)
    case None => None
    case Some((v, rest)) => if SkipSpace(rest) == [] then Some(v) else None
  }

  /** `canonicalizeJSON` */
  function CanonicalizeJSON(s: text): Option<text> {
    match Parse(s)
    case None => None
    case Some(v) => Some(CanonicalizeValue(v))
  }

  // ---------------------------------------------------------------- parsing what was printed

  lemma {:induction false} DigitsShape(n: nat)
    ensures forall i :: 0 <= i < |Digits(n)| ==> IsDigit(Digits(n)[i])
    ensures DigitsValue(Digits(n)) == n
    ensures |Digits(n)| > 1 ==> Digits(n)[0] != 48
    ensures n > 0 ==> Digits(n)[0] != 48
  {
    if n >= 10 {
      DigitsShape(n / 10);
      assert Digits(n)[..|Digits(n)| - 1] == Digits(n / 10);
    }
  }

  lemma {:induction false} RunOfDigits(d: text, rest: text)
    requires forall i :: 0 <= i < |d| ==> IsDigit(d[i])
    requires |rest| == 0 || !IsDigit(rest[0])
    ensures DigitRun(d + rest) == |d|
  {
    if |d| == 0 {
      assert d + rest == rest;
    } else {
      RunOfDigits(d[1..], rest);
      assert (d + rest)[1..] == d[1..] + rest;
    }
  }

  /** What may follow a printed value: nothing, or a unit that ends it. */
  predicate Delimited(rest: text) {
    |rest| == 0 || rest[0] == 44 || rest[0] == 93 || rest[0] == 125
  }

  lemma ParsePrintedDigits(n: nat, rest: text)
    requires n <= MAX_SAFE_INTEGER && Delimited(rest)
    ensures ParseDigits(Digits(n) + rest) == Some((n, rest))
  {
    DigitsShape(n);
    RunOfDigits(Digits(n), rest);
    var s := Digits(n) + rest;
    assert s[..|Digits(n)|] == Digits(n) && s[|Digits(n)|..] == rest;
  }

  lemma ParseAtNumber(s: text)
    requires |s| > 0 && (s[0] == 45 || IsDigit(s[0]))
    ensures ParseValue(s) == ParseNumber(s)
  {
    hide ParseNumber, ParseChars, ParseItems, ParseMembers, ParseLiteral;
  }

  lemma ParsePrintedNumber(n: int, rest: text)
    requires -MAX_SAFE_INTEGER <= n <= MAX_SAFE_INTEGER && Delimited(rest)
    ensures ParseValue(FormatNumber(n) + rest) == Some((Num(n), rest))
  {
    hide ParseValue, ParseDigits, Digits;
    var s := FormatNumber(n) + rest;
    var m := if n < 0 then -n else n;
    ParsePrintedDigits(m, rest);
    DigitsShape(m);
    assert n < 0 ==> s[0] == 45 && s[1..] == Digits(m) + rest;
    assert n >= 0 ==> s == Digits(m) + rest && s[0] == Digits(m)[0];
    ParseAtNumber(s);
  }

  lemma UnescapeEscaped(u: unit, rest: text)
    ensures |Escape(u)| == 1 ==> Escape(u) == [u] && u >= 0x20 && u != QUOTE && u != BACKSLASH
    ensures |Escape(u)| > 1 ==> Escape(u)[0] == BACKSLASH && Unescape(Escape(u)[1..] + rest) == Some((u, rest))
  {
    var e := Escape(u);
    var t := e[1..] + rest;
    if |e| == 2 {
      assert t[0] == e[1] && t[1..] == rest;
    } else if |e| == 6 {
      HexBack(u / 16);
      HexBack(u % 16);
      assert t[0] == e[1] && t[1] == e[2] && t[2] == e[3] && t[3] == e[4] && t[4] == e[5];
      UnescapeHex(t, u / 16, u % 16);
      assert t[5..] == rest;
    }
  }

  lemma UnescapeHex(t: text, a: nat, b: nat)
    requires a < 16 && b < 16
    requires |t| >= 5 && t[0] == 117 && t[1] == 48 && t[2] == 48
    requires HexValue(t[3]) == Some(a) && HexValue(t[4]) == Some(b)
    ensures Unescape(t) == Some((16 * a + b, t[5..]))
  {
    assert HexValue(48) == Some(0);
  }

  lemma HexBack(d: nat)
    requires d < 16
    ensures HexValue(HexDigit(d)) == Some(d)
  {
  }

  lemma ParsePlainChar(u: unit, tail: text)
    requires u >= 0x20 && u != QUOTE && u != BACKSLASH
    ensures ParseChars([u] + tail) == Prepend(u, ParseChars(tail))
  {
    assert ([u] + tail)[1..] == tail;
  }

  lemma ParseEscape(e: text, u: unit, tail: text)
    requires |e| > 1 && e[0] == BACKSLASH && Unescape(e[1..] + tail) == Some((u, tail))
    ensures ParseChars(e + tail) == Prepend(u, ParseChars(tail))
  {
    hide Unescape;
    assert (e + tail)[1..] == e[1..] + tail;
  }

  lemma ParseQuote(rest: text)
    ensures ParseChars([QUOTE] + rest) == Some(([], rest))
  {
    assert ([QUOTE] + rest)[1..] == rest;
  }

  lemma {:induction false} ParsePrintedChars(s: text, rest: text)
    ensures ParseChars(EscapeAll(s) + [QUOTE] + rest) == Some((s, rest))
  {
    hide Escape, Unescape, ParseChars;
    if |s| == 0 {
      assert EscapeAll(s) + [QUOTE] + rest == [QUOTE] + rest;
      ParseQuote(rest);
    } else {
      var tail := EscapeAll(s[1..]) + [QUOTE] + rest;
      assert EscapeAll(s) + [QUOTE] + rest == Escape(s[0]) + tail;
      ParsePrintedChars(s[1..], rest);
      UnescapeEscaped(s[0], tail);
      EscapeNonEmpty(s[0]);
      assert s == [s[0]] + s[1..];
      if |Escape(s[0])| > 1 {
        ParseEscape(Escape(s[0]), s[0], tail);
      } else {
        ParsePlainChar(s[0], tail);
      }
    }
  }

  lemma EscapeNonEmpty(u: unit)
    ensures |Escape(u)| >= 1
  {
  }

  lemma ParsePrintedString(s: text, rest: text)
    ensures ParseValue(WriteString(s) + rest) == Some((Str(s), rest))
  {
    hide ParseChars, ParseNumber, ParseItems, ParseMembers, ParseLiteral, EscapeAll;
    ParsePrintedChars(s, rest);
    assert (WriteString(s) + rest)[1..] == EscapeAll(s) + [QUOTE] + rest;
  }

  lemma ParsePrintedLiteral(rest: text)
    ensures ParseValue(NULL_TEXT + rest) == Some((Null, rest))
    ensures ParseValue(Literal(true) + rest) == Some((Bool(true), rest))
    ensures ParseValue(Literal(false) + rest) == Some((Bool(false), rest))
  {
    LiteralPrefix(NULL_TEXT, rest);
    LiteralPrefix(Literal(true), rest);
    LiteralPrefix(Literal(false), rest);
  }

  lemma LiteralPrefix(p: text, rest: text)
    ensures StartsWith(p + rest, p) && (p + rest)[|p|..] == rest
    ensures forall i :: 0 <= i < |p| ==> (p + rest)[i] == p[i]
  {
  }

  /** The unit a printed value starts with is neither a space nor a closing bracket. */
  lemma PrintedHead(v: Json)
    ensures |Print(v)| > 0 && !IsSpace(Print(v)[0]) && Print(v)[0] != 93 && Print(v)[0] != 125
  {
    match v
    case Num(n) => DigitsShape(if n < 0 then -n else n);
    case _ =>
  }

  lemma ParseAtBracket(body: text)
    ensures ParseValue([91] + body) ==
      var u := SkipSpace(body);
      if |u| > 0 && u[0] == 93 then Some((Arr([]), u[1..])) else ParseItems(u, [])
  {
    assert ([91] + body)[1..] == body;
  }

  lemma ParseAtBrace(body: text)
    ensures ParseValue([123] + body) ==
      var u := SkipSpace(body);
      if |u| > 0 && u[0] == 125 then Some((Obj([]), u[1..])) else ParseMembers(u, [])
  {
    assert ([123] + body)[1..] == body;
  }

  /** Reading back what was printed, with anything that ends a value behind it. */
  lemma {:induction false} ParsePrinted(v: Json, rest: text)
    requires Valid(v) && Delimited(rest)
    ensures ParseValue(Print(v) + rest) == Some((v, rest))
    decreases v, 0
  {
    hide ParseValue, ParseItems, ParseMembers, WriteString, FormatNumber;
    match v
    case Null => ParsePrintedLiteral(rest);
    case Bool(b) => ParsePrintedLiteral(rest);
    case Num(n) => ParsePrintedNumber(n, rest);
    case Str(s) => ParsePrintedString(s, rest);
    case Arr(items) => ParsePrintedArray(items, rest);
    case Obj(members) => ParsePrintedObject(members, rest);
  }

  lemma {:induction false} ParsePrintedArray(items: seq<Json>, rest: text)
    requires forall i :: 0 <= i < |items| ==> Valid(items[i])
    ensures ParseValue(Print(Arr(items)) + rest) == Some((Arr(items), rest))
    decreases items, 2
  {
    hide ParseValue, ParseItems, Join;
    var close := [93] + rest;
    var body := Join(PrintAll(items)) + close;
    assert Print(Arr(items)) + rest == [91] + body;
    ParseAtBracket(body);
    if |items| == 0 {
      JoinEmpty();
      assert body == close && body[1..] == rest;
    } else {
      ParsePrintedItems(items, [], rest);
      PrintedHead(items[0]);
      JoinHead(PrintAll(items), close);
      assert [] + items == items;
    }
  }

  lemma {:induction false} ParsePrintedObject(members: seq<Member>, rest: text)
    requires DistinctKeys(members) && forall i :: 0 <= i < |members| ==> Valid(members[i].value)
    ensures ParseValue(Print(Obj(members)) + rest) == Some((Obj(members), rest))
    decreases members, 4
  {
    hide ParseValue, ParseMembers, Join;
    var close := [125] + rest;
    var body := Join(PrintMembers(members)) + close;
    assert Print(Obj(members)) + rest == [123] + body;
    ParseAtBrace(body);
    if |members| == 0 {
      JoinEmpty();
      assert body == close && body[1..] == rest;
    } else {
      assert [] + members == members;
      ParsePrintedMembers(members, [], rest);
      JoinHead(PrintMembers(members), close);
    }
  }

  lemma JoinEmpty()
    ensures Join([]) == []
  {
  }

  lemma JoinHead(parts: seq<text>, close: text)
    requires |parts| > 0 && |parts[0]| > 0
    ensures |Join(parts) + close| > 0 && (Join(parts) + close)[0] == parts[0][0]
  {
  }

  lemma JoinStep(parts: seq<text>, close: text)
    requires |parts| > 0
    ensures Join(parts) + close == parts[0] + (if |parts| == 1 then close else COMMA + (Join(parts[1..]) + close))
  {
    if |parts| > 1 {
      FourParts(parts[0], COMMA, Join(parts[1..]), close);
    }
  }

  lemma FourParts(a: text, b: text, c: text, d: text)
    ensures (a + b + c) + d == a + (b + (c + d))
  {
  }

  /** One turn of the item loop. */
  lemma ItemsStep(s: text, items: seq<Json>, v: Json, rest: text)
    requires ParseValue(s) == Some((v, rest)) && |rest| > 0
    ensures rest[0] == 93 ==> ParseItems(s, items) == Some((Arr(items + [v]), rest[1..]))
    ensures rest[0] == 44 ==> ParseItems(s, items) == ParseItems(rest[1..], items + [v])
  {
    hide ParseValue;
  }

  lemma {:induction false} ParsePrintedItems(items: seq<Json>, before: seq<Json>, rest: text)
    requires |items| > 0 && forall i :: 0 <= i < |items| ==> Valid(items[i])
    ensures ParseItems(Join(PrintAll(items)) + ([93] + rest), before) == Some((Arr(before + items), rest))
    decreases items, 1
  {
    hide ParseValue, ParseItems, Join, Print, Valid;
    var parts := PrintAll(items);
    var close := [93] + rest;
    JoinStep(parts, close);
    if |items| == 1 {
      ParsePrinted(items[0], close);
      ItemsStep(Print(items[0]) + close, before, items[0], close);
      assert before + [items[0]] == before + items && close[1..] == rest;
    } else {
      var tail := items[1..];
      var next := Join(PrintAll(tail)) + close;
      assert parts[1..] == PrintAll(tail);
      ParsePrinted(items[0], COMMA + next);
      ItemsStep(Print(items[0]) + (COMMA + next), before, items[0], COMMA + next);
      assert (COMMA + next)[1..] == next;
      ParsePrintedItems(tail, before + [items[0]], rest);
      assert before + [items[0]] + tail == before + items;
    }
  }

  lemma {:induction false} PutFresh(members: seq<Member>, m: Member)
    requires forall i :: 0 <= i < |members| ==> members[i].key != m.key
    ensures Put(members, m) == members + [m]
  {
    if |members| > 0 {
      PutFresh(members[1..], m);
    }
  }

  /** A member is a string, a colon and a value. */
  lemma MemberParts(key: text, v: Json, body: text, afterKey: text, rest: text)
    requires ParseChars(body) == Some((key, COLON + afterKey))
    requires ParseValue(afterKey) == Some((v, rest))
    ensures ParseMember([QUOTE] + body) == Some((Member(key, v), rest))
  {
    hide ParseValue, ParseChars;
    assert ([QUOTE] + body)[1..] == body && (COLON + afterKey)[1..] == afterKey;
  }

  lemma {:induction false} ParsePrintedMember(m: Member, rest: text)
    requires Valid(m.value) && Delimited(rest)
    ensures ParseMember(PrintMember(m) + rest) == Some((m, rest))
    decreases m, 2
  {
    hide ParseValue, ParseChars, EscapeAll, ParseMember, Print, Valid;
    var afterKey := Print(m.value) + rest;
    var body := EscapeAll(m.key) + [QUOTE] + (COLON + afterKey);
    assert PrintMember(m) + rest == [QUOTE] + body;
    ParsePrintedChars(m.key, COLON + afterKey);
    ParsePrinted(m.value, rest);
    MemberParts(m.key, m.value, body, afterKey, rest);
  }

  /** One turn of the member loop. */
  lemma MembersStep(s: text, members: seq<Member>, m: Member, rest: text)
    requires ParseMember(s) == Some((m, rest)) && |rest| > 0
    ensures rest[0] == 125 ==> ParseMembers(s, members) == Some((Obj(Put(members, m)), rest[1..]))
    ensures rest[0] == 44 ==> ParseMembers(s, members) == ParseMembers(rest[1..], Put(members, m))
  {
    hide ParseMember, Put;
  }

  lemma FreshKey(before: seq<Member>, members: seq<Member>)
    requires |members| > 0 && DistinctKeys(before + members)
    ensures Put(before, members[0]) == before + [members[0]]
    ensures DistinctKeys(before + [members[0]] + members[1..])
  {
    var all := before + members;
    forall i | 0 <= i < |before|
      ensures before[i].key != members[0].key
    {
      assert all[i] == before[i] && all[|before|] == members[0];
    }
    PutFresh(before, members[0]);
    assert before + [members[0]] + members[1..] == all;
  }

  lemma {:induction false} ParsePrintedMembers(members: seq<Member>, before: seq<Member>, rest: text)
    requires |members| > 0 && forall i :: 0 <= i < |members| ==> Valid(members[i].value)
    requires DistinctKeys(before + members)
    ensures ParseMembers(Join(PrintMembers(members)) + ([125] + rest), before) == Some((Obj(before + members), rest))
    decreases members, 3
  {
    hide ParseMember, ParseMembers, Join, PrintMember, Print, Put, DistinctKeys, Valid;
    var parts := PrintMembers(members);
    var close := [125] + rest;
    var m := members[0];
    JoinStep(parts, close);
    FreshKey(before, members);
    if |members| == 1 {
      ParsePrintedMember(m, close);
      MembersStep(PrintMember(m) + close, before, m, close);
      assert before + [m] == before + members && close[1..] == rest;
    } else {
      var tail := members[1..];
      var next := Join(PrintMembers(tail)) + close;
      assert parts[1..] == PrintMembers(tail);
      ParsePrintedMember(m, COMMA + next);
      MembersStep(PrintMember(m) + (COMMA + next), before, m, COMMA + next);
      assert (COMMA + next)[1..] == next;
      ParsePrintedMembers(tail, before + [m], rest);
      assert before + [m] + tail == before + members;
    }
  }

  // ---------------------------------------------------------------- the round trips

  /** Parsing the canonical text gives the value back, up to the order of object members. */
  lemma CanonicalRoundTrip(v: Json)
    requires Valid(v)
    ensures Parse(CanonicalizeValue(v)) == Some(SortKeys(v))
    ensures SameUpToKeyOrder(v, SortKeys(v))
  {
    CanonicalIsPrintedNormalForm(v);
    SortKeysValid(v);
    ParsePrinted(SortKeys(v), []);
    assert Print(SortKeys(v)) + [] == Print(SortKeys(v));
    SortKeysIdempotent(v);
    SameNormalForm(v, SortKeys(v));
  }

  /** Two values have the same canonical text exactly when they are equal up to key order. */
  lemma CanonicalInjective(v: Json, w: Json)
    requires Valid(v) && Valid(w)
    ensures CanonicalizeValue(v) == CanonicalizeValue(w) <==> SameUpToKeyOrder(v, w)
  {
    CanonicalRoundTrip(v);
    CanonicalRoundTrip(w);
    CanonicalIsPrintedNormalForm(v);
    CanonicalIsPrintedNormalForm(w);
    SameNormalForm(v, w);
  }

  /** No canonical text is a proper prefix of another. */
  lemma CanonicalUniquelyDecodable(v: Json, w: Json, rest: text)
    requires Valid(v) && Valid(w) && Delimited(rest)
    requires CanonicalizeValue(v) + rest == CanonicalizeValue(w)
    ensures rest == []
  {
    CanonicalIsPrintedNormalForm(v);
    CanonicalIsPrintedNormalForm(w);
    SortKeysValid(v);
    SortKeysValid(w);
    ParsePrinted(SortKeys(v), rest);
    ParsePrinted(SortKeys(w), []);
    assert Print(SortKeys(w)) + [] == Print(SortKeys(w));
  }

  /** Putting a member keeps the keys distinct and changes only that key. */
  lemma {:induction false} PutKeeps(members: seq<Member>, m: Member)
    requires DistinctKeys(members)
    ensures DistinctKeys(Put(members, m))
    ensures forall i :: 0 <= i < |Put(members, m)| ==> Put(members, m)[i] == m || Put(members, m)[i] in members
  {
    if |members| > 0 && members[0].key != m.key {
      var tail := members[1..];
      PutKeeps(tail, m);
      forall i | 0 <= i < |Put(tail, m)|
        ensures Put(tail, m)[i].key != members[0].key
      {
        if Put(tail, m)[i] != m {
          var j :| 0 <= j < |tail| && tail[j] == Put(tail, m)[i];
          assert members[j + 1] == tail[j];
        }
      }
    }
  }

  lemma PutValid(members: seq<Member>, m: Member)
    requires Valid(Obj(members)) && Valid(m.value)
    ensures Valid(Obj(Put(members, m)))
  {
    PutKeeps(members, m);
    forall i | 0 <= i < |Put(members, m)|
      ensures Valid(Put(members, m)[i].value)
    {
      if Put(members, m)[i] != m {
        var j :| 0 <= j < |members| && members[j] == Put(members, m)[i];
      }
    }
  }

  /** Whatever is parsed has distinct keys and safe integers. */
  lemma {:induction false} ParsedIsValid(s: text)
    requires ParseValue(s).Some?
    ensures Valid(ParseValue(s).value.0)
    decreases |s|, 2
  {
    hide ParseItems, ParseMembers, ParseChars, ParseDigits;
    var t := SkipSpace(s);
    if t[0] == 91 {
      var u := SkipSpace(t[1..]);
      if !(|u| > 0 && u[0] == 93) {
        ParsedItemsAreValid(u, []);
      }
    } else if t[0] == 123 {
      var u := SkipSpace(t[1..]);
      if !(|u| > 0 && u[0] == 125) {
        ParsedMembersAreValid(u, []);
      }
    } else if t[0] == 45 || IsDigit(t[0]) {
      ParsedNumberIsSafe(t);
    }
  }

  lemma ParsedNumberIsSafe(s: text)
    requires ParseNumber(s).Some?
    ensures Valid(ParseNumber(s).value.0)
  {
  }

  lemma {:induction false} ParsedItemsAreValid(s: text, items: seq<Json>)
    requires ParseItems(s, items).Some? && Valid(Arr(items))
    ensures Valid(ParseItems(s, items).value.0)
    decreases |s|, 3
  {
    hide ParseValue;
    ParsedIsValid(s);
    var (v, rest) := ParseValue(s).value;
    var t := SkipSpace(rest);
    if t[0] != 93 {
      ParsedItemsAreValid(t[1..], items + [v]);
    }
  }

  lemma {:induction false} ParsedMembersAreValid(s: text, members: seq<Member>)
    requires ParseMembers(s, members).Some? && Valid(Obj(members))
    ensures Valid(ParseMembers(s, members).value.0)
    decreases |s|, 3
  {
    hide ParseMember, Put;
    ParsedMemberIsValid(s);
    var (m, rest) := ParseMember(s).value;
    var t := SkipSpace(rest);
    PutValid(members, m);
    if t[0] != 125 {
      ParsedMembersAreValid(t[1..], Put(members, m));
    }
  }

  lemma {:induction false} ParsedMemberIsValid(s: text)
    requires ParseMember(s).Some?
    ensures Valid(ParseMember(s).value.0.value)
    decreases |s|, 1
  {
    hide ParseValue, ParseChars;
    var t := SkipSpace(s);
    var u := SkipSpace(ParseChars(t[1..]).value.1);
    ParsedIsValid(u[1..]);
  }

  /** `canonicalizeJSON` is idempotent: its output is a fixed point, for every text it accepts. */
  lemma CanonicalizeJSONIdempotent(s: text)
    requires CanonicalizeJSON(s).Some?
    ensures CanonicalizeJSON(CanonicalizeJSON(s).value) == CanonicalizeJSON(s)
  {
    hide ParseValue, CanonicalizeValue;
    ParsedIsValid(s);
    var v := Parse(s).value;
    CanonicalRoundTrip(v);
    SortKeysIdempotent(v);
    CanonicalIsPrintedNormalForm(v);
    CanonicalIsPrintedNormalForm(SortKeys(v));
  }
}
