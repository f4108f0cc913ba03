/** The texts JSON.parse reads (RFC 8259): a value can be spelled with any white space between its parts and
    any escapes in its strings, and canonicalizeJSON gives one text for all of its spellings. */
module JsonSpelling {
  import opened Wrappers
  import opened Text
  import opened Jcs
  import opened JsonParse
  import opened CanonicalText

  // ---------------------------------------------------------------- spellings

  /** A unit of a string as itself, behind a backslash, or by its number in four hexadecimal digits. */
  datatype Piece = Raw(u: unit) | Short(letter: unit) | Numbered(digits: text)

  datatype Spelling =
    | Word(value: Json, word: text)
    | Quoted(pieces: seq<Piece>)
    | List(items: seq<Padded>, inside: text)
    | Object(members: seq<SpelledMember>, inside: text)

  /** A spelling with white space around it. */
  datatype Padded = Padded(before: text, spelling: Spelling, after: text)

  datatype SpelledMember = SpelledMember(before: text, key: seq<Piece>, after: text, value: Padded)

  predicate IsBlankText(t: text) {
    forall i :: 0 <= i < |t| ==> t[i] == 32 || t[i] == 9 || t[i] == 10 || t[i] == 13
  }

  /** The value of a digit, in lower or upper case. */
  predicate IsHex(u: unit, d: int) {
    0 <= d < 16 && (u == Ascii("0123456789abcdef")[d] || u == Ascii("0123456789ABCDEF")[d])
  }

  predicate FourHex(digits: text, a: int, b: int, c: int, d: int)
    requires |digits| == 4
  {
    IsHex(digits[0], a) && IsHex(digits[1], b) && IsHex(digits[2], c) && IsHex(digits[3], d)
  }

  ghost predicate IsCode(digits: text, u: unit) {
    |digits| == 4 && exists a, b, c, d :: FourHex(digits, a, b, c, d) && u == ((a * 16 + b) * 16 + c) * 16 + d
  }

  /** The unit a piece stands for. */
  ghost predicate StandsFor(p: Piece, u: unit) {
    match p
    case Raw(raw) => raw == u && u >= 32 && u != 34 && u != 92
    case Short(letter) =>
      || (letter == u && (u == 34 || u == 92 || u == 47))
      || ([letter] == Ascii("b") && u == 8) || ([letter] == Ascii("t") && u == 9) || ([letter] == Ascii("n") && u == 10)
      || ([letter] == Ascii("f") && u == 12) || ([letter] == Ascii("r") && u == 13)
    case Numbered(digits) => IsCode(digits, u)
  }

  function PieceText(p: Piece): text {
    match p
    case Raw(u) => [u]
    case Short(letter) => Ascii("\\") + [letter]
    case Numbered(digits) => Ascii("\\u") + digits
  }

  function PiecesText(pieces: seq<Piece>): text {
    if |pieces| == 0 then [] else PieceText(pieces[0]) + PiecesText(pieces[1..])
  }

  ghost predicate Spells(pieces: seq<Piece>, s: text) {
    |pieces| == |s| && forall i :: 0 <= i < |s| ==> StandsFor(pieces[i], s[i])
  }

  lemma HexIs(u: unit, d: int)
    requires IsHex(u, d)
    ensures HexValue(u) == Some(d)
  {
    var low, high := "0123456789abcdef", "0123456789ABCDEF";
    assert Ascii(low)[d] == low[d] as nat && Ascii(high)[d] == high[d] as nat;
    assert d == 0 || d == 1 || d == 2 || d == 3 || d == 4 || d == 5 || d == 6 || d == 7 || d == 8 || d == 9
      || d == 10 || d == 11 || d == 12 || d == 13 || d == 14 || d == 15;
  }

  lemma PieceReads(p: Piece, u: unit, tail: text)
    requires StandsFor(p, u)
    ensures ParseChars(PieceText(p) + tail) == Prepend(u, ParseChars(tail))
  {
    hide Unescape, IsHex;
    match p
    case Raw(_) => ParsePlainChar(u, tail);
    case Short(letter) =>
      ShortReads(letter, u, tail);
      ParseEscape(PieceText(p), u, tail);
    case Numbered(digits) =>
      NumberedReads(digits, u, tail);
      ParseEscape(PieceText(p), u, tail);
  }

  lemma ShortReads(letter: unit, u: unit, tail: text)
    requires StandsFor(Short(letter), u)
    ensures var e := PieceText(Short(letter));
      |e| == 2 && e[0] == BACKSLASH && Unescape(e[1..] + tail) == Some((u, tail))
  {
    var e := PieceText(Short(letter));
    assert e[1..] + tail == [letter] + tail && ([letter] + tail)[1..] == tail;
    assert Ascii("b") == [98] && Ascii("t") == [116] && Ascii("n") == [110] && Ascii("f") == [102]
      && Ascii("r") == [114];
  }

  lemma NumberedReads(digits: text, u: unit, tail: text)
    requires IsCode(digits, u)
    ensures var e := PieceText(Numbered(digits));
      |e| == 6 && e[0] == BACKSLASH && Unescape(e[1..] + tail) == Some((u, tail))
  {
    hide IsHex;
    var a, b, c, d :| FourHex(digits, a, b, c, d) && u == ((a * 16 + b) * 16 + c) * 16 + d;
    HexIs(digits[0], a);
    HexIs(digits[1], b);
    HexIs(digits[2], c);
    HexIs(digits[3], d);
    var e := PieceText(Numbered(digits));
    var t := e[1..] + tail;
    assert t == [117] + digits + tail && t[5..] == tail;
    assert t[1] == digits[0] && t[2] == digits[1] && t[3] == digits[2] && t[4] == digits[3];
  }

  lemma {:induction false} CharsRead(pieces: seq<Piece>, s: text, rest: text)
    requires Spells(pieces, s)
    ensures ParseChars(PiecesText(pieces) + ([34] + rest)) == Some((s, rest))
  {
    hide PieceText, ParseChars, StandsFor;
    var close := [34] + rest;
    if |s| == 0 {
      assert PiecesText(pieces) + close == close;
      ParseQuote(rest);
    } else {
      var tail := PiecesText(pieces[1..]) + close;
      assert PiecesText(pieces) + close == PieceText(pieces[0]) + tail;
      CharsRead(pieces[1..], s[1..], rest);
      PieceReads(pieces[0], s[0], tail);
      assert s == [s[0]] + s[1..];
    }
  }

  // ---------------------------------------------------------------- values

  /** A spelling of a value: its words are the only ones for it, apart from "-0" for zero, white space stands
      between the other parts, and a key of an object that is repeated has its last value. */
  ghost predicate SpellsValue(x: Spelling, v: Json)
    decreases x
  {
    match x
    case Word(value, word) => value == v && SpellsWord(v, word)
    case Quoted(pieces) => v.Str? && Spells(pieces, v.s)
    case List(items, inside) =>
      && v.Arr? && |items| == |v.items| && IsBlankText(inside)
      && forall i :: 0 <= i < |items| ==> SpellsPadded(items[i], v.items[i])
    case Object(members, inside) =>
      && v.Obj? && IsBlankText(inside)
      && exists ms: seq<Member> :: |ms| == |members| && Overwriting([], ms) == v.members
           && forall i :: 0 <= i < |members| ==> SpellsMember(members[i], ms[i])
  }

  ghost predicate SpellsPadded(x: Padded, v: Json)
    decreases x
  {
    IsBlankText(x.before) && IsBlankText(x.after) && SpellsValue(x.spelling, v)
  }

  ghost predicate SpellsMember(x: SpelledMember, m: Member)
    decreases x
  {
    IsBlankText(x.before) && IsBlankText(x.after) && Spells(x.key, m.key) && SpellsPadded(x.value, m.value)
  }

  /** What is collected when members are read one by one. */
  function Overwriting(before: seq<Member>, ms: seq<Member>): seq<Member>
    decreases |ms|
  {
    if |ms| == 0 then before else Overwriting(Put(before, ms[0]), ms[1..])
  }

  /** A repeated key has its last value in its first place. */
  lemma {:induction false} PutRepeated(members: seq<Member>, m: Member, k: nat)
    requires k < |members| && members[k].key == m.key && forall j :: 0 <= j < k ==> members[j].key != m.key
    ensures Put(members, m) == members[k := m]
  {
    if k > 0 {
      assert forall j :: 0 <= j < k - 1 ==> members[1..][j] == members[j + 1];
      PutRepeated(members[1..], m, k - 1);
    }
  }

  /** Different keys are all kept. */
  lemma {:induction false} DistinctAreKept(before: seq<Member>, ms: seq<Member>)
    requires DistinctKeys(before + ms)
    ensures Overwriting(before, ms) == before + ms
    decreases |ms|
  {
    hide Put, DistinctKeys;
    if |ms| == 0 {
      assert before + ms == before;
    } else {
      FreshKey(before, ms);
      DistinctAreKept(before + [ms[0]], ms[1..]);
      assert before + [ms[0]] + ms[1..] == before + ms;
    }
  }

  predicate SpellsWord(v: Json, word: text) {
    match v
    case Null => word == Ascii("null")
    case Bool(b) => word == if b then Ascii("true") else Ascii("false")
    case Num(n) => Valid(v) && (IsNumberText(n, word) || (n == 0 && word == Ascii("-0")))
    case _ => false
  }

  function TextOf(x: Spelling): text
    decreases x
  {
    match x
    case Word(_, word) => word
    case Quoted(pieces) => QuotedText(pieces)
    case List(items, inside) =>
      var parts := seq(|items|, i requires 0 <= i < |items| => PaddedText(items[i]));
      Ascii("[") + (if |items| == 0 then inside else Joined(parts)) + Ascii("]")
    case Object(members, inside) =>
      var parts := seq(|members|, i requires 0 <= i < |members| => MemberText(members[i]));
      Ascii("{") + (if |members| == 0 then inside else Joined(parts)) + Ascii("}")
  }

  function QuotedText(pieces: seq<Piece>): text {
    Ascii("\"") + PiecesText(pieces) + Ascii("\"")
  }

  function PaddedText(x: Padded): text
    decreases x
  {
    x.before + TextOf(x.spelling) + x.after
  }

  function MemberText(x: SpelledMember): text
    decreases x
  {
    x.before + QuotedText(x.key) + x.after + Ascii(":") + PaddedText(x.value)
  }

  // ---------------------------------------------------------------- white space

  /** Nothing follows, or something that ends a value. */
  predicate Ends(rest: text) {
    |rest| == 0 || rest[0] == 44 || rest[0] == 93 || rest[0] == 125 || IsBlankText(rest[..1])
  }

  lemma {:induction false} SkipBlanks(blank: text, t: text)
    requires IsBlankText(blank)
    ensures SkipSpace(blank + t) == SkipSpace(t)
  {
    if |blank| == 0 {
      assert blank + t == t;
    } else {
      assert (blank + t)[1..] == blank[1..] + t;
      SkipBlanks(blank[1..], t);
    }
  }

  lemma {:induction false} SkipTwice(t: text)
    ensures SkipSpace(SkipSpace(t)) == SkipSpace(t)
  {
    if |t| > 0 && IsSpace(t[0]) {
      SkipTwice(t[1..]);
    }
  }

  /** White space in front of a value or of a member is not seen. */
  lemma ParseSkips(blank: text, t: text)
    requires IsBlankText(blank)
    ensures ParseValue(blank + t) == ParseValue(t) && ParseMember(blank + t) == ParseMember(t)
  {
    hide ParseChars, ParseNumber, ParseLiteral, SkipSpace;
    SkipBlanks(blank, t);
  }

  lemma EndsAfter(blank: text, rest: text)
    requires IsBlankText(blank) && |rest| > 0 && (rest[0] == 44 || rest[0] == 93 || rest[0] == 125)
    ensures Ends(blank + rest)
  {
    if |blank| > 0 {
      assert (blank + rest)[..1] == [blank[0]];
    }
  }

  // ---------------------------------------------------------------- words

  lemma DigitsRead(n: nat, rest: text)
    requires n <= MAX_SAFE_INTEGER && Ends(rest)
    ensures ParseDigits(Digits(n) + rest) == Some((n, rest))
  {
    DigitsShape(n);
    assert |rest| > 0 ==> rest[..1][0] == rest[0];
    RunOfDigits(Digits(n), rest);
    var s := Digits(n) + rest;
    assert s[..|Digits(n)|] == Digits(n) && s[|Digits(n)|..] == rest;
  }

  lemma NumberReads(n: int, rest: text)
    requires Valid(Num(n)) && Ends(rest)
    ensures ParseValue(FormatNumber(n) + rest) == Some((Num(n), rest))
  {
    hide ParseValue, ParseDigits, Digits, Ends;
    var s := FormatNumber(n) + rest;
    if n < 0 {
      DigitsRead(-n, rest);
      assert s[1..] == Digits(-n) + rest;
    } else {
      DigitsRead(n, rest);
      DigitsShape(n);
      assert s[0] == Digits(n)[0];
    }
    ParseAtNumber(s);
  }

  lemma MinusZeroReads(rest: text)
    requires Ends(rest)
    ensures ParseValue(Ascii("-0") + rest) == Some((Num(0), rest))
  {
    hide ParseValue, ParseDigits, Ends;
    var s := Ascii("-0") + rest;
    DigitsRead(0, rest);
    assert Digits(0) == [48];
    assert s[0] == 45 && s[1..] == Digits(0) + rest;
    ParseAtNumber(s);
  }

  lemma WordReads(v: Json, word: text, rest: text)
    requires SpellsWord(v, word) && Ends(rest)
    ensures ParseValue(word + rest) == Some((v, rest))
  {
    hide ParseValue, Ends, IsNumberText, FormatNumber;
    assert Ascii("null") == NULL_TEXT && Ascii("true") == Literal(true) && Ascii("false") == Literal(false);
    ParsePrintedLiteral(rest);
    if v.Num? && IsNumberText(v.n, word) {
      NumberIsUnique(v.n, word);
      NumberReads(v.n, rest);
    } else if v.Num? {
      MinusZeroReads(rest);
    }
  }

  // ---------------------------------------------------------------- lists and objects

  /** A value starts with neither white space nor a closing bracket. */
  lemma Head(x: Spelling, v: Json)
    requires SpellsValue(x, v)
    ensures |TextOf(x)| > 0 && !IsSpace(TextOf(x)[0]) && TextOf(x)[0] != 93 && TextOf(x)[0] != 125
  {
    hide DigitsValue, Joined;
    match x
    case Word(_, word) =>
      if v.Num? && IsNumberText(v.n, word) && v.n >= 0 {
        assert IsDigit(word[0]);
      }
    case _ =>
  }

  lemma AtHead(t: text)
    requires |t| > 0 && !IsSpace(t[0])
    ensures SkipSpace(t) == t
  {
  }

  lemma QuotedReads(pieces: seq<Piece>, s: text, rest: text)
    requires Spells(pieces, s)
    ensures ParseValue(QuotedText(pieces) + rest) == Some((Str(s), rest))
    ensures var t := QuotedText(pieces) + rest; |t| > 0 && t[0] == QUOTE && ParseChars(t[1..]) == Some((s, rest))
  {
    hide ParseChars, ParseNumber, ParseItems, ParseMembers, ParseLiteral, PiecesText;
    CharsRead(pieces, s, rest);
    assert Ascii("\"") == [34];
    assert (QuotedText(pieces) + rest)[1..] == PiecesText(pieces) + ([34] + rest);
  }

  /** One turn of each loop, with white space before the comma or the bracket. */
  lemma ItemTurn(s: text, items: seq<Json>, v: Json, after: text, close: text)
    requires ParseValue(s) == Some((v, after + close)) && IsBlankText(after)
    requires |close| > 0 && (close[0] == 93 || close[0] == 44)
    ensures close[0] == 93 ==> ParseItems(s, items) == Some((Arr(items + [v]), close[1..]))
    ensures close[0] == 44 ==> ParseItems(s, items) == ParseItems(close[1..], items + [v])
  {
    hide ParseValue;
    SkipBlanks(after, close);
    AtHead(close);
  }

  lemma MemberTurn(s: text, members: seq<Member>, m: Member, after: text, close: text)
    requires ParseMember(s) == Some((m, after + close)) && IsBlankText(after)
    requires |close| > 0 && (close[0] == 125 || close[0] == 44)
    ensures close[0] == 125 ==> ParseMembers(s, members) == Some((Obj(Put(members, m)), close[1..]))
    ensures close[0] == 44 ==> ParseMembers(s, members) == ParseMembers(close[1..], Put(members, m))
  {
    hide ParseMember, Put;
    SkipBlanks(after, close);
    AtHead(close);
  }

  lemma LoopsSkip(s: text)
    ensures ParseItems(SkipSpace(s), []) == ParseItems(s, []) && ParseMembers(SkipSpace(s), []) == ParseMembers(s, [])
  {
    SkipTwice(s);
    SameFromSkipped(s);
  }

  lemma SameFromSkipped(s: text)
    ensures ParseValue(SkipSpace(s)) == ParseValue(s) && ParseMember(SkipSpace(s)) == ParseMember(s)
  {
    hide ParseChars, ParseNumber, ParseLiteral, SkipSpace;
    SkipTwice(s);
  }

  /** A spelled value is read as what it spells, up to what follows it. */
  lemma {:induction false} Reads(x: Spelling, v: Json, rest: text)
    requires SpellsValue(x, v) && Ends(rest)
    ensures ParseValue(TextOf(x) + rest) == Some((v, rest))
    decreases x, 0
  {
    hide ParseValue, ParseItems, ParseMembers, Ends, QuotedText, Joined;
    match x
    case Word(_, word) => WordReads(v, word, rest);
    case Quoted(pieces) => QuotedReads(pieces, v.s, rest);
    case List(items, inside) => ListReads(x, v, rest);
    case Object(members, inside) => ObjectReads(x, v, rest);
  }

  lemma {:induction false} PaddedReads(x: Padded, v: Json, close: text)
    requires SpellsPadded(x, v) && |close| > 0 && (close[0] == 44 || close[0] == 93 || close[0] == 125)
    ensures ParseValue(PaddedText(x) + close) == Some((v, x.after + close))
    decreases x, 1
  {
    hide ParseValue, Ends, TextOf;
    var tail := TextOf(x.spelling) + (x.after + close);
    assert PaddedText(x) + close == x.before + tail;
    EndsAfter(x.after, close);
    Reads(x.spelling, v, x.after + close);
    ParseSkips(x.before, tail);
  }

  function ItemTexts(items: seq<Padded>): (r: seq<text>)
    ensures |r| == |items| && forall i :: 0 <= i < |items| ==> r[i] == PaddedText(items[i])
  {
    seq(|items|, i requires 0 <= i < |items| => PaddedText(items[i]))
  }

  function MemberTexts(members: seq<SpelledMember>): (r: seq<text>)
    ensures |r| == |members| && forall i :: 0 <= i < |members| ==> r[i] == MemberText(members[i])
  {
    seq(|members|, i requires 0 <= i < |members| => MemberText(members[i]))
  }

  lemma {:induction false} ItemsRead(items: seq<Padded>, vs: seq<Json>, before: seq<Json>, rest: text)
    requires |items| == |vs| > 0 && forall i :: 0 <= i < |items| ==> SpellsPadded(items[i], vs[i])
    ensures ParseItems(Join(ItemTexts(items)) + ([93] + rest), before) == Some((Arr(before + vs), rest))
    decreases items, 2
  {
    hide ParseValue, ParseItems, Join, PaddedText, SpellsPadded;
    var parts := ItemTexts(items);
    var close := [93] + rest;
    JoinStep(parts, close);
    var next := if |items| == 1 then close else COMMA + (Join(parts[1..]) + close);
    PaddedReads(items[0], vs[0], next);
    BlankAfter(items[0], vs[0]);
    ItemTurn(PaddedText(items[0]) + next, before, vs[0], items[0].after, next);
    if |items| == 1 {
      assert before + [vs[0]] == before + vs && close[1..] == rest;
    } else {
      assert parts[1..] == ItemTexts(items[1..]);
      assert next[1..] == Join(ItemTexts(items[1..])) + close;
      ItemsRead(items[1..], vs[1..], before + [vs[0]], rest);
      assert before + [vs[0]] + vs[1..] == before + vs;
    }
  }

  lemma BlankAfter(x: Padded, v: Json)
    requires SpellsPadded(x, v)
    ensures IsBlankText(x.after)
  {
  }

  /** Behind white space the first part of a list is no closing bracket. */
  lemma FirstItem(x: Padded, v: Json, tail: text)
    requires SpellsPadded(x, v)
    ensures var u := SkipSpace(PaddedText(x) + tail); |u| > 0 && u[0] != 93
  {
    hide TextOf, SkipSpace, SpellsValue;
    var t := TextOf(x.spelling) + (x.after + tail);
    assert PaddedText(x) + tail == x.before + t;
    Head(x.spelling, v);
    SkipBlanks(x.before, t);
    AtHead(t);
  }

  lemma {:induction false} ListReads(x: Spelling, v: Json, rest: text)
    requires x.List? && SpellsValue(x, v)
    ensures ParseValue(TextOf(x) + rest) == Some((v, rest))
    decreases x, -1
  {
    hide ParseValue, ParseItems, Join, Joined, PaddedText, SpellsPadded, SkipSpace;
    var parts := ItemTexts(x.items);
    var close := [93] + rest;
    assert Ascii("[") == [91] && Ascii("]") == [93];
    if |x.items| == 0 {
      assert TextOf(x) + rest == [91] + (x.inside + close);
      ParseAtBracket(x.inside + close);
      SkipBlanks(x.inside, close);
      AtHead(close);
      assert close[1..] == rest;
    } else {
      JoinedIs(parts);
      var body := Join(parts) + close;
      ListText(x);
      assert TextOf(x) + rest == [91] + body;
      ParseAtBracket(body);
      JoinStep(parts, close);
      FirstItem(x.items[0], v.items[0], if |parts| == 1 then close else COMMA + (Join(parts[1..]) + close));
      ItemsRead(x.items, v.items, [], rest);
      LoopsSkip(body);
      assert [] + v.items == v.items;
    }
  }

  lemma ListText(x: Spelling)
    requires x.List? && |x.items| > 0
    ensures TextOf(x) == [91] + Joined(ItemTexts(x.items)) + [93]
  {
    hide Joined;
    assert ItemTexts(x.items) == seq(|x.items|, i requires 0 <= i < |x.items| => PaddedText(x.items[i]));
    assert Ascii("[") == [91] && Ascii("]") == [93];
  }

  lemma ObjectText(x: Spelling)
    requires x.Object? && |x.members| > 0
    ensures TextOf(x) == [123] + Joined(MemberTexts(x.members)) + [125]
  {
    hide Joined;
    assert MemberTexts(x.members) == seq(|x.members|, i requires 0 <= i < |x.members| => MemberText(x.members[i]));
    assert Ascii("{") == [123] && Ascii("}") == [125];
  }

  lemma {:induction false} MemberReads(x: SpelledMember, m: Member, close: text)
    requires SpellsMember(x, m) && |close| > 0 && (close[0] == 44 || close[0] == 125)
    ensures ParseMember(MemberText(x) + close) == Some((m, x.value.after + close))
    decreases x, 2
  {
    hide ParseValue, ParseMember, ParseChars, QuotedText, PaddedText, Spells, SpellsPadded;
    var afterColon := PaddedText(x.value) + close;
    var afterKey := x.after + (COLON + afterColon);
    var t := QuotedText(x.key) + afterKey;
    assert Ascii(":") == COLON;
    assert MemberText(x) + close == x.before + t;
    ParseSkips(x.before, t);
    QuotedReads(x.key, m.key, afterKey);
    PaddedReads(x.value, m.value, close);
    MemberAt(t, m.key, x.after, afterColon, m.value, x.value.after + close);
  }

  lemma MemberAt(t: text, key: text, blank: text, afterColon: text, v: Json, rest: text)
    requires |t| > 0 && t[0] == QUOTE && ParseChars(t[1..]) == Some((key, blank + (COLON + afterColon)))
    requires IsBlankText(blank) && ParseValue(afterColon) == Some((v, rest))
    ensures ParseMember(t) == Some((Member(key, v), rest))
  {
    hide ParseValue, ParseChars;
    AtHead(t);
    SkipBlanks(blank, COLON + afterColon);
    AtHead(COLON + afterColon);
    assert (COLON + afterColon)[1..] == afterColon;
  }

  lemma {:induction false} MembersRead(xs: seq<SpelledMember>, ms: seq<Member>, before: seq<Member>, rest: text)
    requires |xs| == |ms| > 0 && forall i :: 0 <= i < |xs| ==> SpellsMember(xs[i], ms[i])
    ensures ParseMembers(Join(MemberTexts(xs)) + ([125] + rest), before) == Some((Obj(Overwriting(before, ms)), rest))
    decreases xs, 3
  {
    hide ParseMember, ParseMembers, Join, MemberText, SpellsMember, Put;
    var parts := MemberTexts(xs);
    var close := [125] + rest;
    JoinStep(parts, close);
    var next := if |xs| == 1 then close else COMMA + (Join(parts[1..]) + close);
    MemberReads(xs[0], ms[0], next);
    BlankAfterMember(xs[0], ms[0]);
    MemberTurn(MemberText(xs[0]) + next, before, ms[0], xs[0].value.after, next);
    if |xs| == 1 {
      assert Overwriting(Put(before, ms[0]), ms[1..]) == Put(before, ms[0]) && close[1..] == rest;
    } else {
      assert parts[1..] == MemberTexts(xs[1..]);
      assert next[1..] == Join(MemberTexts(xs[1..])) + close;
      MembersRead(xs[1..], ms[1..], Put(before, ms[0]), rest);
    }
  }

  lemma BlankAfterMember(x: SpelledMember, m: Member)
    requires SpellsMember(x, m)
    ensures IsBlankText(x.value.after)
  {
  }

  lemma FirstMember(x: SpelledMember, m: Member, tail: text)
    requires SpellsMember(x, m)
    ensures var u := SkipSpace(MemberText(x) + tail); |u| > 0 && u[0] != 125
  {
    hide SkipSpace, SpellsPadded, PaddedText, PiecesText;
    var t := QuotedText(x.key) + (x.after + Ascii(":") + PaddedText(x.value) + tail);
    assert MemberText(x) + tail == x.before + t;
    SkipBlanks(x.before, t);
    assert Ascii("\"") == [34];
    AtHead(t);
  }

  lemma {:induction false} ObjectReads(x: Spelling, v: Json, rest: text)
    requires x.Object? && SpellsValue(x, v)
    ensures ParseValue(TextOf(x) + rest) == Some((v, rest))
    decreases x, -1
  {
    hide ParseValue, ParseMembers, Join, Joined, MemberText, SpellsMember, SkipSpace, Put;
    var ms: seq<Member> :| |ms| == |x.members| && Overwriting([], ms) == v.members
      && forall i :: 0 <= i < |ms| ==> SpellsMember(x.members[i], ms[i]);
    if |x.members| == 0 {
      EmptyObject(x.inside, rest);
      assert TextOf(x) == Ascii("{") + x.inside + Ascii("}");
    } else {
      MembersRead(x.members, ms, [], rest);
      ObjectText(x);
      ObjectAt(x.members, ms, v, rest);
    }
  }

  lemma EmptyObject(inside: text, rest: text)
    requires IsBlankText(inside)
    ensures ParseValue(Ascii("{") + inside + Ascii("}") + rest) == Some((Obj([]), rest))
  {
    hide ParseValue, ParseMembers, SkipSpace;
    var close := [125] + rest;
    assert Ascii("{") + inside + Ascii("}") + rest == [123] + (inside + close);
    ParseAtBrace(inside + close);
    SkipBlanks(inside, close);
    AtHead(close);
    assert close[1..] == rest;
  }

  lemma ObjectAt(xs: seq<SpelledMember>, ms: seq<Member>, v: Json, rest: text)
    requires |xs| == |ms| > 0 && SpellsMember(xs[0], ms[0])
    requires ParseMembers(Join(MemberTexts(xs)) + ([125] + rest), []) == Some((v, rest))
    ensures ParseValue([123] + Joined(MemberTexts(xs)) + [125] + rest) == Some((v, rest))
  {
    hide ParseValue, ParseMembers, Join, Joined, MemberText, SpellsMember, SkipSpace;
    var parts := MemberTexts(xs);
    var close := [125] + rest;
    var body := Join(parts) + close;
    JoinedIs(parts);
    assert [123] + Joined(parts) + [125] + rest == [123] + body;
    ParseAtBrace(body);
    JoinStep(parts, close);
    FirstMember(xs[0], ms[0], if |parts| == 1 then close else COMMA + (Join(parts[1..]) + close));
    LoopsSkip(body);
  }

  // ---------------------------------------------------------------- one text for all spellings

  /** JSON.parse gives the value that is spelled, and canonicalizeJSON its canonical text. */
  lemma SpellingsAreRead(x: Padded, v: Json)
    requires SpellsPadded(x, v)
    ensures Parse(PaddedText(x)) == Some(v) && CanonicalizeJSON(PaddedText(x)) == Some(CanonicalizeValue(v))
  {
    hide ParseValue, TextOf, Ends;
    var tail := TextOf(x.spelling) + x.after;
    assert PaddedText(x) == x.before + tail;
    BlankEnds(x.after);
    Reads(x.spelling, v, x.after);
    ParseSkips(x.before, tail);
    assert x.after + [] == x.after;
    SkipBlanks(x.after, []);
  }

  lemma BlankEnds(t: text)
    requires IsBlankText(t)
    ensures Ends(t)
  {
  }

  lemma ReadIsValid(s: text)
    requires Parse(s).Some?
    ensures Valid(Parse(s).value)
  {
    hide ParseValue, Valid;
    ParsedIsValid(s);
  }

  /** Two spellings of values equal up to the order of keys have one canonical text, and others do not. */
  lemma OneTextForAllSpellings(x: Padded, v: Json, y: Padded, w: Json)
    requires SpellsPadded(x, v) && SpellsPadded(y, w)
    ensures CanonicalizeJSON(PaddedText(x)) == CanonicalizeJSON(PaddedText(y)) <==> SameUpToKeyOrder(v, w)
  {
    hide Parse, CanonicalizeJSON, CanonicalizeValue, PaddedText, SpellsPadded, Valid, SameUpToKeyOrder;
    SpellingsAreRead(x, v);
    SpellingsAreRead(y, w);
    ReadIsValid(PaddedText(x));
    ReadIsValid(PaddedText(y));
    CanonicalInjective(v, w);
  }
}
