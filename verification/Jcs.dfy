/** The canonical JSON printer of miniprogram/lib/jcs.ts (RFC 8785 section 3.2). */
module Jcs {
  import opened Text
  import opened Sorting

  /** A parsed JSON value. An object is the list of its members in enumeration order. */
  datatype Json =
    | Null
    | Bool(b: bool)
    | Num(n: int)
    | Str(s: text)
    | Arr(items: seq<Json>)
    | Obj(members: seq<Member>)

  datatype Member = Member(key: text, value: Json)

  const MAX_SAFE_INTEGER: int := 0x1f_ffff_ffff_ffff

  /** Numbers are safe integers and the keys of an object are distinct. */
  predicate Valid(v: Json) {
    match v
    case Num(n) => -MAX_SAFE_INTEGER <= n <= MAX_SAFE_INTEGER
    case Arr(items) => forall i :: 0 <= i < |items| ==> Valid(items[i])
    case Obj(members) => DistinctKeys(members) && forall i :: 0 <= i < |members| ==> Valid(members[i].value)
    case _ => true
  }

  predicate DistinctKeys(members: seq<Member>) {
    forall i, j :: 0 <= i < j < |members| ==> members[i].key != members[j].key
  }

  // ---------------------------------------------------------------- the printer

  const QUOTE: unit := 34
  const BACKSLASH: unit := 92
  const COMMA: text := [44]
  const COLON: text := [58]

  /** Decimal digits, most significant first. */
  function Digits(n: nat): (t: text)
    ensures |t| > 0
  {
    if n < 10 then [48 + n] else Digits(n / 10) + [48 + n % 10]
  }

  /** `formatJCSNumber` for integers: zero is "0", and every safe integer is in fixed-point range. */
  function FormatNumber(n: int): text {
    if n < 0 then [45] + Digits(-n) else Digits(n)
  }

  function HexDigit(d: nat): unit
    requires d < 16
  {
    if d < 10 then 48 + d else 87 + d
  }

  /** What `writeJCSString` emits for one unit. */
  function Escape(u: unit): text {
    if u == QUOTE then [BACKSLASH, QUOTE]
    else if u == BACKSLASH then [BACKSLASH, BACKSLASH]
    else if u == 8 then [BACKSLASH, 98]
    else if u == 9 then [BACKSLASH, 116]
    else if u == 10 then [BACKSLASH, 110]
    else if u == 12 then [BACKSLASH, 102]
    else if u == 13 then [BACKSLASH, 114]
    else if u < 0x20 then [BACKSLASH, 117, 48, 48, HexDigit(u / 16), HexDigit(u % 16)]
    else [u]
  }

  function EscapeAll(s: text): text {
    if |s| == 0 then [] else Escape(s[0]) + EscapeAll(s[1..])
  }

  function WriteString(s: text): text {
    [QUOTE] + EscapeAll(s) + [QUOTE]
  }

  /** `parts.join(',')` */
  function Join(parts: seq<text>): text {
    if |parts| == 0 then []
    else if |parts| == 1 then parts[0]
    else parts[0] + COMMA + Join(parts[1..])
  }

  function KeyLess(): (Member, Member) -> bool {
    (a: Member, b: Member) => Less(a.key, b.key)
  }

  /** A key with the text printed for its member. */
  datatype Entry = Entry(key: text, printed: text)

  function EntryLess(): (Entry, Entry) -> bool {
    (a: Entry, b: Entry) => Less(a.key, b.key)
  }

  function PrintedOf(): Entry -> text {
    (e: Entry) => e.printed
  }

  function Literal(b: bool): text {
    if b then [116, 114, 117, 101] else [102, 97, 108, 115, 101]
  }

  const NULL_TEXT: text := [110, 117, 108, 108]

  /** `canonicalizeValue` */
  function CanonicalizeValue(v: Json): text {
    match v
    case Null => NULL_TEXT
    case Bool(b) => Literal(b)
    case Num(n) => FormatNumber(n)
    case Str(s) => WriteString(s)
    case Arr(items) => [91] + Join(seq(|items|, i requires 0 <= i < |items| => CanonicalizeValue(items[i]))) + [93]
    case Obj(members) =>
      var entries := seq(|members|, i requires 0 <= i < |members| =>
        Entry(members[i].key, WriteString(members[i].key) + COLON + CanonicalizeValue(members[i].value)));
      [123] + Join(Map(PrintedOf(), Sort(entries, EntryLess()))) + [125]
  }

  /** `writeJCSString`: the loop runs over code points, and a surrogate pair is copied as it is. */
  method WriteJCSString(value: text) returns (output: text)
    ensures output == WriteString(value)
  {
    hide Escape;
    output := [QUOTE];
    var index := 0;
    while index < |value|
      invariant index <= |value| && output + EscapeAll(value[index..]) == [QUOTE] + EscapeAll(value)
    {
      ghost var rest := value[index..];
      if PairAt(value, index) {
        PairIsCopied(rest);
        assert rest[2..] == value[index + 2..];
        output := output + value[index..index + 2];
        index := index + 2;
      } else {
        assert rest[1..] == value[index + 1..];
        output := output + Escape(value[index]);
        index := index + 1;
      }
    }
    assert value[index..] == [];
    output := output + [QUOTE];
  }

  lemma PairIsCopied(s: text)
    requires PairAt(s, 0)
    ensures EscapeAll(s) == s[..2] + EscapeAll(s[2..])
  {
    assert Escape(s[0]) == [s[0]] && Escape(s[1]) == [s[1]];
    assert s[1..][1..] == s[2..];
  }

  // ---------------------------------------------------------------- key order as a normal form

  /** The value with the members of every object in UTF-16 order of their keys. */
  function SortKeys(v: Json): Json {
    match v
    case Arr(items) => Arr(seq(|items|, i requires 0 <= i < |items| => SortKeys(items[i])))
    case Obj(members) => Obj(Sort(SortedValues(members), KeyLess()))
    case _ => v
  }

  function SortedValues(members: seq<Member>): (r: seq<Member>)
    ensures |r| == |members|
    ensures forall i :: 0 <= i < |members| ==> r[i] == Member(members[i].key, SortKeys(members[i].value))
  {
    seq(|members|, i requires 0 <= i < |members| => Member(members[i].key, SortKeys(members[i].value)))
  }

  /** The value printed with the members in the order they are listed. */
  function Print(v: Json): text {
    match v
    case Null => NULL_TEXT
    case Bool(b) => Literal(b)
    case Num(n) => FormatNumber(n)
    case Str(s) => WriteString(s)
    case Arr(items) => [91] + Join(PrintAll(items)) + [93]
    case Obj(members) => [123] + Join(PrintMembers(members)) + [125]
  }

  function PrintAll(items: seq<Json>): (r: seq<text>)
    ensures |r| == |items| && forall i :: 0 <= i < |items| ==> r[i] == Print(items[i])
  {
    seq(|items|, i requires 0 <= i < |items| => Print(items[i]))
  }

  function PrintMember(m: Member): text {
    WriteString(m.key) + COLON + Print(m.value)
  }

  function PrintMembers(members: seq<Member>): (r: seq<text>)
    ensures |r| == |members| && forall i :: 0 <= i < |members| ==> r[i] == PrintMember(members[i])
  {
    seq(|members|, i requires 0 <= i < |members| => PrintMember(members[i]))
  }

  function MemberEntry(): Member -> Entry {
    (m: Member) => Entry(m.key, PrintMember(m))
  }

  /** Canonical printing prints the normal form. */
  lemma {:induction false} CanonicalIsPrintedNormalForm(v: Json)
    ensures CanonicalizeValue(v) == Print(SortKeys(v))
  {
    match v
    case Arr(items) =>
      forall i | 0 <= i < |items|
        ensures CanonicalizeValue(items[i]) == Print(SortKeys(items[i]))
      {
        CanonicalIsPrintedNormalForm(items[i]);
      }
      assert seq(|items|, i requires 0 <= i < |items| => CanonicalizeValue(items[i])) == PrintAll(SortKeys(v).items);
    case Obj(members) =>
      forall i | 0 <= i < |members|
        ensures CanonicalizeValue(members[i].value) == Print(SortKeys(members[i].value))
      {
        CanonicalIsPrintedNormalForm(members[i].value);
      }
      var normal := SortedValues(members);
      var entries := seq(|members|, i requires 0 <= i < |members| =>
        Entry(members[i].key, WriteString(members[i].key) + COLON + CanonicalizeValue(members[i].value)));
      assert entries == Map(MemberEntry(), normal);
      SortMap(MemberEntry(), normal, KeyLess(), EntryLess());
      assert Map(PrintedOf(), Sort(entries, EntryLess())) == PrintMembers(Sort(normal, KeyLess()));
    case _ =>
  }

  // ---------------------------------------------------------------- equality up to key order

  lemma KeyLessIsOrder()
    ensures StrictWeakOrder(KeyLess())
  {
    forall x: Member, y: Member
      ensures KeyLess()(x, y) ==> !KeyLess()(y, x)
    {
      Trichotomy(x.key, y.key);
    }
    forall x: Member, y: Member, z: Member | KeyLess()(x, y) && KeyLess()(y, z)
      ensures KeyLess()(x, z)
    {
      Transitive(x.key, y.key, z.key);
    }
    forall x: Member, y: Member, z: Member | !KeyLess()(x, y) && !KeyLess()(y, z)
      ensures !KeyLess()(x, z)
    {
      NotLessTransitive(x.key, y.key, z.key);
    }
  }

  lemma NotLessTransitive(a: text, b: text, c: text)
    requires !Less(a, b) && !Less(b, c)
    ensures !Less(a, c)
  {
    Trichotomy(a, b);
    Trichotomy(b, c);
    Trichotomy(a, c);
    if a != b && b != c {
      Transitive(c, b, a);
    }
  }

  lemma DistinctKeysAreStrict(members: seq<Member>)
    requires DistinctKeys(members)
    ensures Strict(members, KeyLess())
  {
    forall i, j | 0 <= i < |members| && 0 <= j < |members| && i != j
      ensures KeyLess()(members[i], members[j]) || KeyLess()(members[j], members[i])
    {
      Trichotomy(members[i].key, members[j].key);
    }
  }

  /** Equal up to the order of object members, at every depth. */
  ghost predicate SameUpToKeyOrder(v: Json, w: Json) {
    match (v, w)
    case (Arr(xs), Arr(ys)) => |xs| == |ys| && forall i :: 0 <= i < |xs| ==> SameUpToKeyOrder(xs[i], ys[i])
    case (Obj(ms), Obj(ns)) =>
      |ms| == |ns| && forall i :: 0 <= i < |ms| ==>
        exists j :: 0 <= j < |ns| && ms[i].key == ns[j].key && SameUpToKeyOrder(ms[i].value, ns[j].value)
    case _ => v == w
  }

  /** A duplicate-free sequence inside one of the same length is a permutation of it. */
  lemma {:induction false} DistinctSubset<T>(xs: seq<T>, ys: seq<T>)
    requires |xs| == |ys|
    requires forall i, j :: 0 <= i < j < |xs| ==> xs[i] != xs[j]
    requires forall x :: x in xs ==> x in ys
    ensures multiset(xs) == multiset(ys)
  {
    if |xs| > 0 {
      assert xs[0] in ys;
      var j :| 0 <= j < |ys| && ys[j] == xs[0];
      var rest := ys[..j] + ys[j + 1..];
      forall x | x in xs[1..]
        ensures x in rest
      {
        var q :| 0 <= q < |xs| - 1 && xs[1..][q] == x;
        assert xs[q + 1] == x && x in ys;
        var p :| 0 <= p < |ys| && ys[p] == x;
        assert p < j ==> rest[p] == x;
        assert p > j ==> rest[p - 1] == x;
      }
      DistinctSubset(xs[1..], rest);
      RemoveAt(ys, j);
      assert xs == [xs[0]] + xs[1..];
    }
  }

  /** The normal form decides equality up to key order. */
  lemma {:induction false} SameNormalForm(v: Json, w: Json)
    requires Valid(v) && Valid(w)
    ensures SameUpToKeyOrder(v, w) <==> SortKeys(v) == SortKeys(w)
  {
    match (v, w)
    case (Arr(xs), Arr(ys)) =>
      if |xs| == |ys| {
        forall i | 0 <= i < |xs|
          ensures SameUpToKeyOrder(xs[i], ys[i]) <==> SortKeys(v).items[i] == SortKeys(w).items[i]
        {
          SameNormalForm(xs[i], ys[i]);
        }
      }
    case (Obj(ms), Obj(ns)) =>
      forall i, j | 0 <= i < |ms| && 0 <= j < |ns|
        ensures SameUpToKeyOrder(ms[i].value, ns[j].value) <==> SortKeys(ms[i].value) == SortKeys(ns[j].value)
      {
        SameNormalForm(ms[i].value, ns[j].value);
      }
      MatchedMembers(ms, ns);
      if |ms| == |ns| && forall i :: 0 <= i < |ms| ==> HasMatch(ms[i], ns) {
        SameMembersSortAlike(ms, ns);
      }
      if SortKeys(v) == SortKeys(w) {
        AlikeLength(ms, ns);
        forall i: nat | i < |ms|
          ensures HasMatch(ms[i], ns)
        {
          AlikeMember(ms, ns, i);
        }
      }
    case _ =>
  }

  ghost predicate HasMatch(m: Member, ns: seq<Member>) {
    exists j :: 0 <= j < |ns| && m.key == ns[j].key && SortKeys(m.value) == SortKeys(ns[j].value)
  }

  lemma MatchedMembers(ms: seq<Member>, ns: seq<Member>)
    requires forall i, j :: 0 <= i < |ms| && 0 <= j < |ns| ==>
      (SameUpToKeyOrder(ms[i].value, ns[j].value) <==> SortKeys(ms[i].value) == SortKeys(ns[j].value))
    ensures SameUpToKeyOrder(Obj(ms), Obj(ns)) <==> |ms| == |ns| && forall i :: 0 <= i < |ms| ==> HasMatch(ms[i], ns)
  {
    hide SortKeys;
    if |ms| == |ns| && forall i :: 0 <= i < |ms| ==> HasMatch(ms[i], ns) {
      forall i | 0 <= i < |ms|
        ensures exists j :: 0 <= j < |ns| && ms[i].key == ns[j].key && SameUpToKeyOrder(ms[i].value, ns[j].value)
      {
        var j :| 0 <= j < |ns| && ms[i].key == ns[j].key && SortKeys(ms[i].value) == SortKeys(ns[j].value);
        assert SameUpToKeyOrder(ms[i].value, ns[j].value);
      }
    }
  }

  lemma SameMembersSortAlike(ms: seq<Member>, ns: seq<Member>)
    requires DistinctKeys(ms) && |ms| == |ns|
    requires forall i :: 0 <= i < |ms| ==> HasMatch(ms[i], ns)
    ensures Sort(SortedValues(ms), KeyLess()) == Sort(SortedValues(ns), KeyLess())
  {
    var xs, ys := SortedValues(ms), SortedValues(ns);
    forall x | x in xs
      ensures x in ys
    {
      var i :| 0 <= i < |xs| && xs[i] == x;
      assert HasMatch(ms[i], ns);
      var j :| 0 <= j < |ns| && ms[i].key == ns[j].key && SortKeys(ms[i].value) == SortKeys(ns[j].value);
      assert ys[j] == x;
    }
    DistinctSubset(xs, ys);
    KeyLessIsOrder();
    DistinctKeysAreStrict(xs);
    SortPermuted(xs, ys, KeyLess());
  }

  lemma AlikeLength(ms: seq<Member>, ns: seq<Member>)
    requires Sort(SortedValues(ms), KeyLess()) == Sort(SortedValues(ns), KeyLess())
    ensures |ms| == |ns|
  {
    hide *;
    var xs, ys := SortedValues(ms), SortedValues(ns);
    assert |Sort(xs, KeyLess())| == |xs| && |Sort(ys, KeyLess())| == |ys|;
  }

  lemma AlikeMember(ms: seq<Member>, ns: seq<Member>, i: nat)
    requires i < |ms| && Sort(SortedValues(ms), KeyLess()) == Sort(SortedValues(ns), KeyLess())
    ensures HasMatch(ms[i], ns)
  {
    hide SortKeys, Sort;
    var xs, ys := SortedValues(ms), SortedValues(ns);
    SortMember(xs, KeyLess(), xs[i]);
    SortMember(ys, KeyLess(), xs[i]);
    var j :| 0 <= j < |ys| && ys[j] == xs[i];
  }

  // ---------------------------------------------------------------- the normal form is valid and normal

  lemma {:induction false} SortKeysValid(v: Json)
    requires Valid(v)
    ensures Valid(SortKeys(v))
  {
    match v
    case Arr(items) =>
      forall i | 0 <= i < |items|
        ensures Valid(SortKeys(items[i]))
      {
        SortKeysValid(items[i]);
      }
    case Obj(members) =>
      var xs := SortedValues(members);
      var r := Sort(xs, KeyLess());
      KeyLessIsOrder();
      DistinctKeysAreStrict(xs);
      SortPermutes(xs, KeyLess());
      StrictPermuted(xs, r, KeyLess());
      forall i | 0 <= i < |r|
        ensures Valid(r[i].value)
      {
        assert r[i] in r;
        SortMember(xs, KeyLess(), r[i]);
        var j :| 0 <= j < |xs| && xs[j] == r[i];
        SortKeysValid(members[j].value);
      }
      forall i, j | 0 <= i < j < |r|
        ensures r[i].key != r[j].key
      {
        Irreflexive(r[i].key);
      }
    case _ =>
  }

  /** The normal form is its own normal form. */
  lemma {:induction false} SortKeysIdempotent(v: Json)
    ensures SortKeys(SortKeys(v)) == SortKeys(v)
  {
    match v
    case Arr(items) =>
      forall i | 0 <= i < |items|
        ensures SortKeys(SortKeys(items[i])) == SortKeys(items[i])
      {
        SortKeysIdempotent(items[i]);
      }
    case Obj(members) =>
      var xs := SortedValues(members);
      var r := Sort(xs, KeyLess());
      forall i | 0 <= i < |r|
        ensures SortKeys(r[i].value) == r[i].value
      {
        assert r[i] in r;
        SortMember(xs, KeyLess(), r[i]);
        var j :| 0 <= j < |xs| && xs[j] == r[i];
        SortKeysIdempotent(members[j].value);
      }
      assert SortedValues(r) == r;
      KeyLessIsOrder();
      SortSorted(xs, KeyLess());
      SortIdempotent(r, KeyLess());
    case _ =>
  }
}
