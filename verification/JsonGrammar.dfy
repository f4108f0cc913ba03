/** JSON.parse reads nothing but spellings (RFC 8259): whatever it accepts is white space, brackets, commas,
    colons, strings, words and safe integers in their places. */
module JsonGrammar {
  import opened Wrappers
  import opened Text
  import opened Jcs
  import opened JsonParse
  import opened CanonicalText
  import opened JsonSpelling

  // ---------------------------------------------------------------- white space

  lemma {:induction false} Skipped(s: text) returns (blank: text)
    ensures IsBlankText(blank) && s == blank + SkipSpace(s)
  {
    if |s| > 0 && IsSpace(s[0]) {
      var tail := Skipped(s[1..]);
      blank := [s[0]] + tail;
      assert s == [s[0]] + s[1..];
    } else {
      blank := [];
    }
  }

  // ---------------------------------------------------------------- strings

  lemma IsHexDigit(u: unit)
    requires HexValue(u).Some?
    ensures IsHex(u, HexValue(u).value)
  {
    var low, high := "0123456789abcdef", "0123456789ABCDEF";
    var d := HexValue(u).value;
    assert Ascii(low)[d] == low[d] as nat && Ascii(high)[d] == high[d] as nat;
    assert d == 0 || d == 1 || d == 2 || d == 3 || d == 4 || d == 5 || d == 6 || d == 7 || d == 8 || d == 9
      || d == 10 || d == 11 || d == 12 || d == 13 || d == 14 || d == 15;
  }

  lemma NumberedIs(s: text)
    requires |s| >= 5 && s[0] == 117 && Unescape(s).Some?
    ensures StandsFor(Numbered(s[1..5]), Unescape(s).value.0) && Unescape(s).value.1 == s[5..]
    ensures [BACKSLASH] + s == PieceText(Numbered(s[1..5])) + s[5..]
  {
    hide IsHex, HexValue;
    IsHexDigit(s[1]);
    IsHexDigit(s[2]);
    IsHexDigit(s[3]);
    IsHexDigit(s[4]);
    var (a, b, c, d) := (HexValue(s[1]).value, HexValue(s[2]).value, HexValue(s[3]).value, HexValue(s[4]).value);
    assert FourHex(s[1..5], a, b, c, d);
    assert 4096 * a + 256 * b + 16 * c + d == ((a * 16 + b) * 16 + c) * 16 + d;
    assert Ascii("\\u") == [92, 117];
  }

  lemma Escaped(s: text) returns (p: Piece)
    requires Unescape(s).Some?
    ensures StandsFor(p, Unescape(s).value.0) && [BACKSLASH] + s == PieceText(p) + Unescape(s).value.1
  {
    if |s| >= 5 && s[0] == 117 {
      p := Numbered(s[1..5]);
      NumberedIs(s);
    } else {
      p := Short(s[0]);
      assert Ascii("b") == [98] && Ascii("t") == [116] && Ascii("n") == [110] && Ascii("f") == [102]
        && Ascii("r") == [114] && Ascii("\\") == [92];
      assert s == [s[0]] + s[1..];
    }
  }

  lemma FirstPiece(s: text) returns (p: Piece, u: unit, next: text)
    requires ParseChars(s).Some? && |s| > 0 && s[0] != QUOTE
    ensures StandsFor(p, u) && s == PieceText(p) + next && |next| < |s|
    ensures ParseChars(next).Some? && ParseChars(s) == Prepend(u, ParseChars(next))
  {
    hide StandsFor, PieceText, Unescape;
    if s[0] == BACKSLASH {
      p := Escaped(s[1..]);
      u, next := Unescape(s[1..]).value.0, Unescape(s[1..]).value.1;
      assert s == [BACKSLASH] + s[1..];
    } else {
      p, u, next := Raw(s[0]), s[0], s[1..];
      RawIs(s);
    }
  }

  lemma ClosingQuote(s: text)
    requires ParseChars(s).Some?
    ensures |s| > 0 && (s[0] == QUOTE ==> ParseChars(s) == Some(([], s[1..])) && s == [34] + s[1..])
  {
  }

  lemma {:induction false} CharsAreSpelled(s: text) returns (pieces: seq<Piece>)
    requires ParseChars(s).Some?
    ensures Spells(pieces, ParseChars(s).value.0)
    ensures s == PiecesText(pieces) + [34] + ParseChars(s).value.1
    decreases |s|
  {
    hide StandsFor, PieceText, ParseChars;
    ClosingQuote(s);
    if s[0] == QUOTE {
      pieces := [];
    } else {
      var p, u, next := FirstPiece(s);
      var tail := CharsAreSpelled(next);
      pieces := [p] + tail;
      assert PiecesText(pieces) == PieceText(p) + PiecesText(tail) by { assert pieces[1..] == tail; }
      MoreSpelled(p, u, tail, ParseChars(next).value.0);
    }
  }

  lemma MoreSpelled(p: Piece, u: unit, tail: seq<Piece>, t: text)
    requires StandsFor(p, u) && Spells(tail, t)
    ensures Spells([p] + tail, [u] + t)
  {
    hide StandsFor;
  }

  lemma RawIs(s: text)
    requires |s| > 0 && s[0] >= 32 && s[0] != QUOTE && s[0] != BACKSLASH
    ensures StandsFor(Raw(s[0]), s[0]) && s == PieceText(Raw(s[0])) + s[1..]
  {
  }

  // ---------------------------------------------------------------- words

  /** Digits that are read are the decimal form of what is read. */
  lemma DigitsAreWritten(s: text)
    requires ParseDigits(s).Some?
    ensures var (n, rest) := ParseDigits(s).value; s == Digits(n) + rest && n <= MAX_SAFE_INTEGER
  {
    hide DigitsValue;
    var k := DigitRun(s);
    CountIsUnique(DigitsValue(s[..k]), s[..k]);
    assert s == s[..k] + s[k..];
  }

  lemma NumberIsSpelled(s: text) returns (word: text)
    requires |s| > 0 && ParseNumber(s).Some?
    ensures SpellsWord(ParseNumber(s).value.0, word) && s == word + ParseNumber(s).value.1
  {
    hide ParseDigits, IsNumberText;
    if s[0] == 45 {
      DigitsAreWritten(s[1..]);
      var n: int := ParseDigits(s[1..]).value.0;
      word := [45] + Digits(n);
      assert s == [45] + s[1..];
      assert Digits(0) == [48] && Ascii("-0") == [45, 48];
      if n > 0 {
        NumberIs(-n);
      }
    } else {
      DigitsAreWritten(s);
      word := Digits(ParseDigits(s).value.0);
      NumberIs(ParseDigits(s).value.0);
    }
  }

  lemma LiteralIsSpelled(s: text) returns (word: text)
    requires ParseLiteral(s).Some?
    ensures SpellsWord(ParseLiteral(s).value.0, word) && s == word + ParseLiteral(s).value.1
  {
    assert Ascii("null") == NULL_TEXT && Ascii("true") == Literal(true) && Ascii("false") == Literal(false);
    word := if StartsWith(s, NULL_TEXT) then NULL_TEXT else Literal(StartsWith(s, Literal(true)));
    assert s == s[..|word|] + s[|word|..];
  }

  // ---------------------------------------------------------------- values

  /** `x` and `rest` are what a reading of `s` as `v` has read and has left. */
  ghost predicate Read(s: text, x: Padded, v: Json, rest: text) {
    x.after == [] && SpellsPadded(x, v) && s == PaddedText(x) + rest
  }

  lemma {:induction false} ValueIsSpelled(s: text) returns (x: Padded)
    requires ParseValue(s).Some?
    ensures Read(s, x, ParseValue(s).value.0, ParseValue(s).value.1)
    decreases |s|, 3
  {
    hide ParseValue, TextOf, SpellsValue, SkipSpace;
    var blank := Skipped(s);
    SameFromSkipped(s);
    SkipTwice(s);
    var bare := BareIsSpelled(SkipSpace(s));
    x := Padded(blank, bare, []);
    assert PaddedText(x) + ParseValue(s).value.1 == blank + (TextOf(bare) + ParseValue(s).value.1);
  }

  lemma {:induction false} BareIsSpelled(t: text) returns (x: Spelling)
    requires SkipSpace(t) == t && ParseValue(t).Some?
    ensures SpellsValue(x, ParseValue(t).value.0) && t == TextOf(x) + ParseValue(t).value.1
    decreases |t|, 2
  {
    hide ParseItems, ParseMembers, ParseNumber, ParseLiteral, ParseChars, SpellsWord, Spells, PiecesText, Joined,
      SkipSpace, SpellsMember, SpellsPadded;
    var rest := ParseValue(t).value.1;
    if t[0] == QUOTE {
      var pieces := CharsAreSpelled(t[1..]);
      x := Quoted(pieces);
      assert Ascii("\"") == [34];
      assert t == [34] + t[1..];
    } else if t[0] == 91 {
      x := ListIsSpelled(t);
    } else if t[0] == 123 {
      x := ObjectIsSpelled(t);
    } else {
      var word;
      if t[0] == 45 || IsDigit(t[0]) {
        word := NumberIsSpelled(t);
      } else {
        word := LiteralIsSpelled(t);
      }
      x := Word(ParseValue(t).value.0, word);
    }
  }

  lemma {:induction false} ListIsSpelled(t: text) returns (x: Spelling)
    requires |t| > 0 && t[0] == 91 && ParseValue(t).Some?
    ensures SpellsValue(x, ParseValue(t).value.0) && t == TextOf(x) + ParseValue(t).value.1
    decreases |t|, 1
  {
    hide ParseValue, ParseItems, Join, Joined, SpellsPadded, PaddedText, SkipSpace, ItemTexts, TextOf;
    var body := t[1..];
    assert t == [91] + body;
    ParseAtBracket(body);
    var blank := Skipped(body);
    var u, rest := SkipSpace(body), ParseValue(t).value.1;
    if |u| > 0 && u[0] == 93 {
      x := List([], blank);
      assert u == [93] + rest;
      EmptyListText(blank);
      assert t == [91] + blank + [93] + rest;
    } else {
      LoopsSkip(body);
      var items, vs := ItemsAreSpelled(body, []);
      x := List(items, []);
      assert [] + vs == vs;
      JoinedIs(ItemTexts(items));
      ListText(x);
    }
  }

  lemma EmptyListText(blank: text)
    ensures TextOf(List([], blank)) == [91] + blank + [93]
  {
    assert Ascii("[") == [91] && Ascii("]") == [93];
  }

  lemma EmptyObjectText(blank: text)
    ensures TextOf(Object([], blank)) == [123] + blank + [125]
  {
    assert Ascii("{") == [123] && Ascii("}") == [125];
  }

  /** The white space behind a value. */
  lemma WithBlank(s: text, x: Padded, v: Json, blank: text, t: text)
    requires Read(s, x, v, blank + t) && IsBlankText(blank)
    ensures SpellsPadded(x.(after := blank), v) && s == PaddedText(x.(after := blank)) + t
  {
    hide TextOf, SpellsValue;
    assert PaddedText(x) + (blank + t) == x.before + TextOf(x.spelling) + blank + t;
  }

  lemma ItemsStep(s: text, before: seq<Json>)
    requires ParseItems(s, before).Some?
    ensures ParseValue(s).Some?
    ensures var (v, rest) := ParseValue(s).value; var t := SkipSpace(rest);
      && 0 < |t| <= |rest| < |s|
      && (t[0] == 93 || t[0] == 44) && t == [t[0]] + t[1..]
      && ParseItems(s, before) ==
         if t[0] == 93 then Some((Arr(before + [v]), t[1..])) else ParseItems(t[1..], before + [v])
  {
    hide ParseValue, SkipSpace;
  }

  lemma {:induction false} ItemsAreSpelled(s: text, before: seq<Json>) returns (items: seq<Padded>, vs: seq<Json>)
    requires ParseItems(s, before).Some?
    ensures |items| == |vs| > 0 && forall i :: 0 <= i < |items| ==> SpellsPadded(items[i], vs[i])
    ensures ParseItems(s, before).value.0 == Arr(before + vs)
    ensures s == Join(ItemTexts(items)) + [93] + ParseItems(s, before).value.1
    decreases |s|, 4
  {
    hide ParseValue, ParseItems, Join, PaddedText, SpellsPadded, SkipSpace, ItemTexts, Read;
    ItemsStep(s, before);
    var (v, rest) := ParseValue(s).value;
    var t := SkipSpace(rest);
    var x := ValueIsSpelled(s);
    var blank := Skipped(rest);
    WithBlank(s, x, v, blank, t);
    var item := x.(after := blank);
    if t[0] == 93 {
      items, vs := [item], [v];
      OneText(item);
    } else {
      var more, values := ItemsAreSpelled(t[1..], before + [v]);
      items, vs := [item] + more, [v] + values;
      assert before + [v] + values == before + vs;
      MoreTexts(item, more);
    }
  }

  lemma OneText(item: Padded)
    ensures Join(ItemTexts([item])) == PaddedText(item)
  {
    hide PaddedText;
  }

  lemma MoreTexts(item: Padded, items: seq<Padded>)
    requires |items| > 0
    ensures Join(ItemTexts([item] + items)) == PaddedText(item) + COMMA + Join(ItemTexts(items))
  {
    hide PaddedText;
    assert ItemTexts([item] + items)[1..] == ItemTexts(items);
  }

  lemma {:induction false} ObjectIsSpelled(t: text) returns (x: Spelling)
    requires |t| > 0 && t[0] == 123 && ParseValue(t).Some?
    ensures SpellsValue(x, ParseValue(t).value.0) && t == TextOf(x) + ParseValue(t).value.1
    decreases |t|, 1
  {
    hide ParseValue, ParseMembers, Join, Joined, SpellsMember, MemberText, Put, SkipSpace, MemberTexts, TextOf,
      SpellsValue, Overwriting;
    var body := t[1..];
    assert t == [123] + body;
    ParseAtBrace(body);
    var blank := Skipped(body);
    var u, rest := SkipSpace(body), ParseValue(t).value.1;
    if |u| > 0 && u[0] == 125 {
      x := Object([], blank);
      assert u == [125] + rest;
      EmptyObjectText(blank);
      NoMembers();
      SpellsObject([], [], blank);
      assert t == [123] + blank + [125] + rest;
    } else {
      LoopsSkip(body);
      var members, ms := MembersAreSpelled(body, []);
      x := Object(members, []);
      JoinedIs(MemberTexts(members));
      SpellsObject(members, ms, []);
      JsonSpelling.ObjectText(x);
    }
  }

  lemma NoMembers()
    ensures Overwriting([], []) == []
  {
  }

  lemma SpellsObject(members: seq<SpelledMember>, ms: seq<Member>, blank: text)
    requires |members| == |ms| && IsBlankText(blank)
    requires forall i :: 0 <= i < |members| ==> SpellsMember(members[i], ms[i])
    ensures SpellsValue(Object(members, blank), Obj(Overwriting([], ms)))
  {
    hide SpellsMember, Overwriting;
  }

  lemma MemberStep(s: text)
    requires ParseMember(s).Some?
    ensures var t := SkipSpace(s); |t| > 0 && t == [34] + t[1..] && ParseChars(t[1..]).Some?
    ensures var (key, afterKey) := ParseChars(SkipSpace(s)[1..]).value; var u := SkipSpace(afterKey);
      && 0 < |u| <= |afterKey| < |s| && u == [58] + u[1..] && ParseValue(u[1..]).Some?
      && ParseMember(s) == Some((Member(key, ParseValue(u[1..]).value.0), ParseValue(u[1..]).value.1))
  {
    hide ParseValue, ParseChars, SkipSpace;
  }

  lemma {:induction false} MemberIsSpelled(s: text) returns (x: SpelledMember)
    requires ParseMember(s).Some?
    ensures SpellsMember(x, ParseMember(s).value.0) && x.value.after == []
    ensures s == MemberText(x) + ParseMember(s).value.1
    decreases |s|, 4
  {
    hide ParseMember, ParseValue, ParseChars, Spells, PiecesText, PaddedText, SpellsPadded, SkipSpace, MemberText;
    MemberStep(s);
    var before := Skipped(s);
    var t := SkipSpace(s);
    var afterKey := ParseChars(t[1..]).value.1;
    var pieces := CharsAreSpelled(t[1..]);
    var after := Skipped(afterKey);
    var u := SkipSpace(afterKey);
    var value := ValueIsSpelled(u[1..]);
    x := SpelledMember(before, pieces, after, value);
    MemberTextIs(x, ParseMember(s).value.1);
    assert s == before + ([34] + (PiecesText(pieces) + [34] + (after + ([58] + u[1..]))));
  }

  lemma MemberTextIs(x: SpelledMember, rest: text)
    ensures MemberText(x) + rest
      == x.before + ([34] + (PiecesText(x.key) + [34] + (x.after + ([58] + (PaddedText(x.value) + rest)))))
  {
    hide PiecesText, PaddedText;
    assert Ascii("\"") == [34] && Ascii(":") == [58];
    var t := PaddedText(x.value);
    assert MemberText(x) == x.before + ([34] + PiecesText(x.key) + [34]) + x.after + [58] + t;
  }

  lemma MemberWithBlank(s: text, x: SpelledMember, m: Member, blank: text, t: text)
    requires SpellsMember(x, m) && x.value.after == [] && s == MemberText(x) + (blank + t) && IsBlankText(blank)
    ensures var y := x.(value := x.value.(after := blank)); SpellsMember(y, m) && s == MemberText(y) + t
  {
    hide TextOf, SpellsValue, QuotedText, Spells;
    var y := x.(value := x.value.(after := blank));
    assert PaddedText(y.value) == PaddedText(x.value) + blank;
    assert MemberText(y) == MemberText(x) + blank;
  }

  lemma MembersStep(s: text, before: seq<Member>)
    requires ParseMembers(s, before).Some?
    ensures ParseMember(s).Some?
    ensures var (m, rest) := ParseMember(s).value; var t := SkipSpace(rest); var all := Put(before, m);
      && 0 < |t| <= |rest| < |s|
      && (t[0] == 125 || t[0] == 44) && t == [t[0]] + t[1..]
      && ParseMembers(s, before) == if t[0] == 125 then Some((Obj(all), t[1..])) else ParseMembers(t[1..], all)
  {
    hide ParseMember, SkipSpace, Put;
  }

  lemma {:induction false} MembersAreSpelled(s: text, before: seq<Member>)
    returns (members: seq<SpelledMember>, ms: seq<Member>)
    requires ParseMembers(s, before).Some?
    ensures |members| == |ms| > 0 && forall i :: 0 <= i < |members| ==> SpellsMember(members[i], ms[i])
    ensures ParseMembers(s, before).value.0 == Obj(Overwriting(before, ms))
    ensures s == Join(MemberTexts(members)) + [125] + ParseMembers(s, before).value.1
    decreases |s|, 5
  {
    hide ParseMember, ParseMembers, Join, MemberText, SpellsMember, Put, SkipSpace, MemberTexts;
    MembersStep(s, before);
    var (m, rest) := ParseMember(s).value;
    var t := SkipSpace(rest);
    var x := MemberIsSpelled(s);
    var blank := Skipped(rest);
    MemberWithBlank(s, x, m, blank, t);
    var member := x.(value := x.value.(after := blank));
    if t[0] == 125 {
      members, ms := [member], [m];
      OneMemberText(member);
      assert Overwriting(Put(before, m), []) == Put(before, m);
      assert Overwriting(before, ms) == Put(before, m) by { assert ms[1..] == []; }
    } else {
      var more, values := MembersAreSpelled(t[1..], Put(before, m));
      members, ms := [member] + more, [m] + values;
      assert ms[1..] == values;
      MoreMemberTexts(member, more);
    }
  }

  lemma OneMemberText(member: SpelledMember)
    ensures Join(MemberTexts([member])) == MemberText(member)
  {
    hide MemberText;
  }

  lemma MoreMemberTexts(member: SpelledMember, members: seq<SpelledMember>)
    requires |members| > 0
    ensures Join(MemberTexts([member] + members)) == MemberText(member) + COMMA + Join(MemberTexts(members))
  {
    hide MemberText;
    assert MemberTexts([member] + members)[1..] == MemberTexts(members);
  }

  // ---------------------------------------------------------------- the grammar

  /** A text is read as a value exactly if it spells it. */
  lemma ReadIffSpelled(t: text, v: Json)
    ensures Parse(t) == Some(v) <==> exists x :: SpellsPadded(x, v) && PaddedText(x) == t
  {
    hide ParseValue, SpellsPadded, PaddedText;
    if Parse(t) == Some(v) {
      var x := WholeIsSpelled(t);
    }
    if x :| SpellsPadded(x, v) && PaddedText(x) == t {
      SpellingsAreRead(x, v);
    }
  }

  /** So canonicalizeJSON refuses exactly the texts that spell nothing. */
  lemma RefusedIffNotSpelled(t: text)
    ensures CanonicalizeJSON(t).None? <==> forall x, v :: SpellsPadded(x, v) ==> PaddedText(x) != t
  {
    hide Parse, SpellsPadded, PaddedText, CanonicalizeValue;
    forall x, v | SpellsPadded(x, v) && PaddedText(x) == t
      ensures Parse(t).Some?
    {
      SpellingsAreRead(x, v);
    }
    if Parse(t).Some? {
      var x := WholeIsSpelled(t);
    }
  }

  lemma WholeIsSpelled(t: text) returns (x: Padded)
    requires Parse(t).Some?
    ensures SpellsPadded(x, Parse(t).value) && PaddedText(x) == t
  {
    hide ParseValue, TextOf, SpellsValue;
    x := ValueIsSpelled(t);
    var rest := ParseValue(t).value.1;
    var blank := Skipped(rest);
    assert blank + [] == blank;
    x := x.(after := blank);
  }
}
