/** The canonical form of RFC 8785 written down on its own, from the characters up, and the printer of
    miniprogram/lib/jcs.ts proved to print it: it is the only text of that form. */
module CanonicalText {
  import opened Text
  import opened Sorting
  import opened Jcs
  import opened JsonParse
  import opened Bignum

  // ---------------------------------------------------------------- strings

  /** Section 3.2.2.2: two-character escapes where there are some, lower-case hexadecimal for the other control
      characters, and every other unit as it is. */
  function EscapeForm(u: unit): text {
    if u == 34 then Ascii("\\\"")
    else if u == 92 then Ascii("\\\\")
    else if u == 8 then Ascii("\\b")
    else if u == 9 then Ascii("\\t")
    else if u == 10 then Ascii("\\n")
    else if u == 12 then Ascii("\\f")
    else if u == 13 then Ascii("\\r")
    else if u < 32 then Ascii("\\u00") + [HexChar(u / 16), HexChar(u % 16)]
    else [u]
  }

  function HexChar(d: nat): unit
    requires d < 16
  {
    Ascii("0123456789abcdef")[d]
  }

  /** From the back, one unit at a time. */
  function BodyForm(s: text): text {
    if |s| == 0 then Ascii("") else BodyForm(s[..|s| - 1]) + EscapeForm(s[|s| - 1])
  }

  function StringForm(s: text): text {
    Ascii("\"") + BodyForm(s) + Ascii("\"")
  }

  lemma DigitChar(d: nat)
    requires d < 16
    ensures HexDigit(d) == HexChar(d)
  {
    var t := "0123456789abcdef";
    assert Ascii(t)[d] == t[d] as nat;
    assert d == 0 || d == 1 || d == 2 || d == 3 || d == 4 || d == 5 || d == 6 || d == 7 || d == 8 || d == 9
      || d == 10 || d == 11 || d == 12 || d == 13 || d == 14 || d == 15;
  }

  lemma EscapeIs(u: unit)
    ensures Escape(u) == EscapeForm(u)
  {
    if u < 32 {
      DigitChar(u / 16);
      DigitChar(u % 16);
      assert Ascii("\\u00") == [92, 117, 48, 48];
    }
  }

  lemma {:induction false} EscapeLast(s: text, u: unit)
    ensures EscapeAll(s + [u]) == EscapeAll(s) + Escape(u)
  {
    hide Escape;
    if |s| == 0 {
      assert s + [u] == [u] && [u][1..] == [];
    } else {
      assert (s + [u])[1..] == s[1..] + [u];
      EscapeLast(s[1..], u);
    }
  }

  lemma {:induction false} BodyIs(s: text)
    ensures EscapeAll(s) == BodyForm(s)
  {
    hide Escape, EscapeForm;
    if |s| > 0 {
      var n := |s| - 1;
      BodyIs(s[..n]);
      EscapeIs(s[n]);
      EscapeLast(s[..n], s[n]);
      assert s == s[..n] + [s[n]];
    }
  }

  lemma StringIs(s: text)
    ensures WriteString(s) == StringForm(s)
  {
    BodyIs(s);
    assert Ascii("\"") == [34];
  }

  // ---------------------------------------------------------------- numbers and lists

  /** An integer without a plus sign or needless zeros. */
  predicate IsNumberText(n: int, t: text) {
    if n < 0 then |t| > 0 && t[0] == 45 && IsCount(-n, t[1..]) else IsCount(n, t)
  }

  predicate IsCount(n: nat, t: text) {
    |t| > 0 && AllDigits(t) && DigitsValue(t) == n && (|t| > 1 ==> t[0] != 48)
  }

  lemma NumberIs(n: int)
    ensures IsNumberText(n, FormatNumber(n))
  {
    hide Digits, DigitsValue;
    if n < 0 {
      CountIs(-n);
      assert FormatNumber(n)[1..] == Digits(-n);
    } else {
      CountIs(n);
    }
  }

  lemma CountIs(n: nat)
    ensures IsCount(n, Digits(n))
  {
    DigitsShape(n);
  }

  /** Parts with commas between them, from the back. */
  function Joined(parts: seq<text>): text {
    if |parts| == 0 then Ascii("")
    else
      var n := |parts| - 1;
      (if n == 0 then Ascii("") else Joined(parts[..n]) + Ascii(",")) + parts[n]
  }

  lemma {:induction false} JoinLast(parts: seq<text>)
    requires |parts| > 1
    ensures Join(parts) == Join(parts[..|parts| - 1]) + Ascii(",") + parts[|parts| - 1]
  {
    var n := |parts| - 1;
    assert Ascii(",") == COMMA;
    if n > 1 {
      JoinLast(parts[1..]);
      assert parts[1..][..n - 1] == parts[..n][1..];
      var front := Join(parts[1..][..n - 1]);
      assert parts[0] + COMMA + (front + COMMA + parts[n]) == (parts[0] + COMMA + front) + COMMA + parts[n];
    } else {
      assert parts[1..] == [parts[1]] && parts[..1] == [parts[0]];
    }
  }

  lemma {:induction false} JoinedIs(parts: seq<text>)
    ensures Join(parts) == Joined(parts)
  {
    if |parts| > 1 {
      JoinLast(parts);
      JoinedIs(parts[..|parts| - 1]);
    }
  }

  // ---------------------------------------------------------------- values

  /** Section 3.2.3: at the first difference the unit is smaller, or the key ends. */
  ghost predicate KeyBefore(a: text, b: text) {
    exists n :: 0 <= n <= |a| && n < |b| && a[..n] == b[..n] && (n == |a| || a[n] < b[n])
  }

  /** A member as it is printed, from its key and the text of its value. */
  function MemberForm(): Entry -> text {
    (e: Entry) => StringForm(e.key) + Ascii(":") + e.printed
  }

  ghost predicate KeysAscend(order: seq<Entry>) {
    forall i, j :: 0 <= i < j < |order| ==> KeyBefore(order[i].key, order[j].key)
  }

  /** Each key with a text for its value. */
  function Listed(members: seq<Member>, texts: seq<text>): (r: seq<Entry>)
    requires |texts| == |members|
    ensures |r| == |members| && forall i :: 0 <= i < |r| ==> r[i] == Entry(members[i].key, texts[i])
  {
    seq(|members|, i requires 0 <= i < |members| => Entry(members[i].key, texts[i]))
  }

  /** The text is the canonical form of the value. */
  ghost predicate IsCanonical(v: Json, t: text)
    decreases v, 1
  {
    match v
    case Null => t == Ascii("null")
    case Bool(b) => t == if b then Ascii("true") else Ascii("false")
    case Num(n) => IsNumberText(n, t)
    case Str(s) => t == StringForm(s)
    case Arr(_) => exists texts: seq<text> :: AreTexts(v, texts) && t == Ascii("[") + Joined(texts) + Ascii("]")
    case Obj(members) =>
      exists texts: seq<text>, order: seq<Entry> ::
        AreTexts(v, texts) && multiset(order) == multiset(Listed(members, texts)) && KeysAscend(order)
        && t == Ascii("{") + Joined(Map(MemberForm(), order)) + Ascii("}")
  }

  /** The texts of the elements of a list, or of the values of an object. */
  ghost predicate AreTexts(v: Json, texts: seq<text>)
    decreases v, 0
  {
    match v
    case Arr(items) => |texts| == |items| && forall i :: 0 <= i < |items| ==> IsCanonical(items[i], texts[i])
    case Obj(members) =>
      |texts| == |members| && forall i :: 0 <= i < |members| ==> IsCanonical(members[i].value, texts[i])
    case _ => false
  }

  lemma {:induction false} BeforeIsLess(a: text, b: text, n: nat)
    requires n <= |a| && n < |b| && a[..n] == b[..n] && (n == |a| || a[n] < b[n])
    ensures Less(a, b)
    decreases n
  {
    if n > 0 {
      assert a[0] == a[..n][0] && b[0] == b[..n][0];
      assert a[1..][..n - 1] == a[..n][1..] && b[1..][..n - 1] == b[..n][1..];
      BeforeIsLess(a[1..], b[1..], n - 1);
    }
  }

  lemma {:induction false} LessIsBefore(a: text, b: text) returns (n: nat)
    requires Less(a, b)
    ensures n <= |a| && n < |b| && a[..n] == b[..n] && (n == |a| || a[n] < b[n])
  {
    n := 0;
    if |a| > 0 && a[0] == b[0] {
      n := LessIsBefore(a[1..], b[1..]);
      assert a[..n + 1] == [a[0]] + a[1..][..n] && b[..n + 1] == [b[0]] + b[1..][..n];
      n := n + 1;
    }
  }

  lemma KeyOrder(a: text, b: text)
    ensures Less(a, b) <==> KeyBefore(a, b)
  {
    if Less(a, b) {
      var n := LessIsBefore(a, b);
    }
    if KeyBefore(a, b) {
      var n :| 0 <= n <= |a| && n < |b| && a[..n] == b[..n] && (n == |a| || a[n] < b[n]);
      BeforeIsLess(a, b, n);
    }
  }

  function TextsOf(items: seq<Json>): (r: seq<text>)
    ensures |r| == |items| && forall i :: 0 <= i < |items| ==> r[i] == CanonicalizeValue(items[i])
  {
    seq(|items|, i requires 0 <= i < |items| => CanonicalizeValue(items[i]))
  }

  function ValuesOf(members: seq<Member>): (r: seq<text>)
    ensures |r| == |members| && forall i :: 0 <= i < |members| ==> r[i] == CanonicalizeValue(members[i].value)
  {
    seq(|members|, i requires 0 <= i < |members| => CanonicalizeValue(members[i].value))
  }

  /** The printer prints the canonical form. */
  lemma {:induction false} PrintsCanonical(v: Json)
    requires Valid(v)
    ensures IsCanonical(v, CanonicalizeValue(v))
  {
    hide StringForm, WriteString, Joined, Join;
    match v
    case Null => assert Ascii("null") == NULL_TEXT;
    case Bool(b) => assert Ascii("true") == Literal(true) && Ascii("false") == Literal(false);
    case Num(n) => NumberIs(n);
    case Str(s) => StringIs(s);
    case Arr(items) =>
      forall i | 0 <= i < |items|
        ensures IsCanonical(items[i], CanonicalizeValue(items[i]))
      {
        PrintsCanonical(items[i]);
      }
      JoinedIs(TextsOf(items));
      assert AreTexts(v, TextsOf(items));
      assert Ascii("[") == [91] && Ascii("]") == [93];
    case Obj(members) =>
      forall i | 0 <= i < |members|
        ensures IsCanonical(members[i].value, CanonicalizeValue(members[i].value))
      {
        PrintsCanonical(members[i].value);
      }
      assert AreTexts(v, ValuesOf(members));
      ObjectText(members);
  }

  /** The entries of an object in the order in which they are printed. */
  function InOrder(members: seq<Member>): seq<Entry> {
    Sort(Listed(members, ValuesOf(members)), EntryLess())
  }

  lemma EntryLessIsOrder()
    ensures StrictWeakOrder(EntryLess()) && forall x :: !EntryLess()(x, x)
  {
    hide Less;
    forall x: Entry, y: Entry, z: Entry
      ensures EntryLess()(x, y) ==> !EntryLess()(y, x)
      ensures EntryLess()(x, y) && EntryLess()(y, z) ==> EntryLess()(x, z)
      ensures !EntryLess()(x, y) && !EntryLess()(y, z) ==> !EntryLess()(x, z)
    {
      Trichotomy(x.key, y.key);
      Trichotomy(y.key, z.key);
      Trichotomy(x.key, z.key);
      if Less(x.key, y.key) && Less(y.key, z.key) {
        Transitive(x.key, y.key, z.key);
      }
      if Less(z.key, y.key) && Less(y.key, x.key) {
        Transitive(z.key, y.key, x.key);
      }
    }
  }

  lemma SortedAscend(es: seq<Entry>)
    requires forall i, j :: 0 <= i < j < |es| ==> es[i].key != es[j].key
    ensures multiset(Sort(es, EntryLess())) == multiset(es) && KeysAscend(Sort(es, EntryLess()))
  {
    hide Sort, Less, StrictWeakOrder, KeyBefore;
    var order := Sort(es, EntryLess());
    EntryLessIsOrder();
    SortPermutes(es, EntryLess());
    SortSorted(es, EntryLess());
    forall i, j | 0 <= i < |es| && 0 <= j < |es| && i != j
      ensures EntryLess()(es[i], es[j]) || EntryLess()(es[j], es[i])
    {
      Trichotomy(es[i].key, es[j].key);
    }
    StrictPermuted(es, order, EntryLess());
    forall i, j | 0 <= i < j < |order|
      ensures KeyBefore(order[i].key, order[j].key)
    {
      KeyOrder(order[i].key, order[j].key);
    }
  }

  function LineOf(): Entry -> Entry {
    (e: Entry) => Entry(e.key, MemberForm()(e))
  }

  lemma ObjectText(members: seq<Member>)
    requires DistinctKeys(members)
    ensures multiset(InOrder(members)) == multiset(Listed(members, ValuesOf(members))) && KeysAscend(InOrder(members))
    ensures CanonicalizeValue(Obj(members)) == Ascii("{") + Joined(Map(MemberForm(), InOrder(members))) + Ascii("}")
  {
    hide Sort, StringForm, WriteString, Join, Joined, KeysAscend, Less;
    var listed := Listed(members, ValuesOf(members));
    SortedAscend(listed);
    var entries := seq(|members|, i requires 0 <= i < |members| =>
      Entry(members[i].key, WriteString(members[i].key) + COLON + CanonicalizeValue(members[i].value)));
    assert Ascii(":") == COLON && Ascii("{") == [123] && Ascii("}") == [125];
    forall i | 0 <= i < |members|
      ensures entries[i] == LineOf()(listed[i])
    {
      StringIs(members[i].key);
      assert MemberForm()(listed[i])
          == StringForm(members[i].key) + Ascii(":") + CanonicalizeValue(members[i].value);
    }
    assert entries == Map(LineOf(), listed);
    SortMap(LineOf(), listed, EntryLess(), EntryLess());
    var order := InOrder(members);
    assert Map(PrintedOf(), Map(LineOf(), order)) == Map(MemberForm(), order);
    JoinedIs(Map(MemberForm(), order));
  }

  // ---------------------------------------------------------------- there is no other

  lemma {:induction false} CountIsUnique(n: nat, t: text)
    requires IsCount(n, t)
    ensures t == Digits(n)
  {
    var k := |t| - 1;
    assert IsDigit(t[k]);
    if k > 0 {
      CountIsUnique(DigitsValue(t[..k]), t[..k]);
      assert t == t[..k] + [t[k]];
    }
  }

  lemma NumberIsUnique(n: int, t: text)
    requires IsNumberText(n, t)
    ensures t == FormatNumber(n)
  {
    if n < 0 {
      CountIsUnique(-n, t[1..]);
      assert t == [t[0]] + t[1..];
    } else {
      CountIsUnique(n, t);
    }
  }

  /** A text of the canonical form is what the printer prints. */
  lemma {:induction false} CanonicalIsPrinted(v: Json, t: text)
    requires Valid(v) && IsCanonical(v, t)
    ensures t == CanonicalizeValue(v)
    decreases v
  {
    hide StringForm, WriteString, Joined, Join, MemberForm;
    match v
    case Null => assert Ascii("null") == NULL_TEXT;
    case Bool(b) => assert Ascii("true") == Literal(true) && Ascii("false") == Literal(false);
    case Num(n) => NumberIsUnique(n, t);
    case Str(s) => StringIs(s);
    case Arr(items) =>
      var texts: seq<text> :| AreTexts(v, texts) && t == Ascii("[") + Joined(texts) + Ascii("]");
      forall i | 0 <= i < |items|
        ensures texts[i] == CanonicalizeValue(items[i])
      {
        CanonicalIsPrinted(items[i], texts[i]);
      }
      assert texts == TextsOf(items);
      JoinedIs(texts);
      assert Ascii("[") == [91] && Ascii("]") == [93];
    case Obj(members) =>
      var texts: seq<text>, order: seq<Entry> :|
        AreTexts(v, texts) && multiset(order) == multiset(Listed(members, texts)) && KeysAscend(order)
        && t == Ascii("{") + Joined(Map(MemberForm(), order)) + Ascii("}");
      forall i | 0 <= i < |members|
        ensures texts[i] == CanonicalizeValue(members[i].value)
      {
        CanonicalIsPrinted(members[i].value, texts[i]);
      }
      assert texts == ValuesOf(members);
      ObjectText(members);
      OneOrder(order, InOrder(members));
  }

  lemma OneOrder(a: seq<Entry>, b: seq<Entry>)
    requires multiset(a) == multiset(b) && KeysAscend(a) && KeysAscend(b)
    ensures a == b
  {
    hide Less, StrictWeakOrder, KeyBefore;
    EntryLessIsOrder();
    AscendingIsSorted(a);
    AscendingIsSorted(b);
    SortUnique(a, b, EntryLess());
  }

  lemma AscendingIsSorted(a: seq<Entry>)
    requires KeysAscend(a)
    ensures Sorted(a, EntryLess()) && TiesEqual(a, EntryLess())
  {
    hide Less, KeyBefore;
    forall i, j | 0 <= i < j < |a|
      ensures EntryLess()(a[i], a[j]) && !EntryLess()(a[j], a[i])
    {
      KeyOrder(a[i].key, a[j].key);
      Trichotomy(a[i].key, a[j].key);
    }
  }

  /** A valid value has exactly one canonical text, and it is the one printed. */
  lemma CanonicalIff(v: Json, t: text)
    requires Valid(v)
    ensures IsCanonical(v, t) <==> t == CanonicalizeValue(v)
  {
    PrintsCanonical(v);
    if IsCanonical(v, t) {
      CanonicalIsPrinted(v, t);
    }
  }

  /** Numbers are valid up to 2^53 - 1 either way. */
  lemma SafeNumbers(n: int)
    ensures Valid(Num(n)) <==> -9_007_199_254_740_991 <= n <= 9_007_199_254_740_991
  {
  }
}
