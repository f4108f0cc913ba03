/** The other side of the request digest: backend/internal/mobilev2contract/digest.go and jcs.go compute
    it again from the message, and accept the command only if the two agree. Server and client differ in
    three things: the server's strings hold no lone surrogates, its objects have no order of members, and
    it sorts `field_paths` by what `fmt.Sprint` writes. */
module ServerDigest {
  import opened Text
  import opened Sorting
  import opened Jcs
  import opened Wrappers
  import opened JsonParse
  import opened Digest

  // ---------------------------------------------------------------- the message as the server reads it

  /** Every string and every key is well formed. */
  predicate WellFormedStrings(v: Json) {
    match v
    case Str(s) => Utf8.WellFormed(s)
    case Arr(items) => forall i :: 0 <= i < |items| ==> WellFormedStrings(items[i])
    case Obj(members) =>
      forall i :: 0 <= i < |members| ==> Utf8.WellFormed(members[i].key) && WellFormedStrings(members[i].value)
    case _ => true
  }

  function ReceivedText(s: text): text {
    FromCodePoints(Utf8.ScrubAll(CodePoints(s)))
  }

  /** What arrives of a value: the decoder replaces lone surrogates. */
  function Received(v: Json): Json {
    match v
    case Str(s) => Str(ReceivedText(s))
    case Arr(items) => Arr(seq(|items|, i requires 0 <= i < |items| => Received(items[i])))
    case Obj(members) =>
      Obj(seq(|members|, i requires 0 <= i < |members| =>
        Member(ReceivedText(members[i].key), Received(members[i].value))))
    case _ => v
  }

  lemma ReceivedWhole(s: text)
    requires Utf8.WellFormed(s)
    ensures ReceivedText(s) == s
  {
    assert Utf8.ScrubAll(CodePoints(s)) == CodePoints(s);
    CodePointsInverse(s);
  }

  lemma {:induction false} ReceivedIsSent(v: Json)
    requires WellFormedStrings(v)
    ensures Received(v) == v
  {
    hide ReceivedText;
    match v
    case Str(s) => ReceivedWhole(s);
    case Arr(items) =>
      forall i | 0 <= i < |items|
        ensures Received(items[i]) == items[i]
      {
        ReceivedIsSent(items[i]);
      }
      assert Received(v).items == items;
    case Obj(members) =>
      forall i | 0 <= i < |members|
        ensures ReceivedText(members[i].key) == members[i].key && Received(members[i].value) == members[i].value
      {
        ReceivedWhole(members[i].key);
        ReceivedIsSent(members[i].value);
      }
      assert Received(v).members == members;
    case _ =>
  }

  lemma ReceivedTextWhole(s: text)
    ensures Utf8.WellFormed(ReceivedText(s))
  {
    var cs := Utf8.ScrubAll(CodePoints(s));
    FromCodePointsInverse(cs);
  }

  /** Whatever is sent, what arrives has the same shape and only well-formed strings. */
  lemma {:induction false} ReceivedIsWellFormed(v: Json)
    ensures WellFormedStrings(Received(v))
    ensures Received(v).Arr? == v.Arr? && (v.Arr? ==> |Received(v).items| == |v.items|)
    ensures Received(v).Obj? == v.Obj? && (v.Obj? ==> |Received(v).members| == |v.members|)
    ensures !v.Str? && !v.Arr? && !v.Obj? ==> Received(v) == v
  {
    hide ReceivedText;
    match v
    case Str(s) => ReceivedTextWhole(s);
    case Arr(items) =>
      forall i | 0 <= i < |items|
        ensures WellFormedStrings(Received(items[i]))
      {
        ReceivedIsWellFormed(items[i]);
      }
    case Obj(members) =>
      forall i | 0 <= i < |members|
        ensures Utf8.WellFormed(ReceivedText(members[i].key)) && WellFormedStrings(Received(members[i].value))
      {
        ReceivedTextWhole(members[i].key);
        ReceivedIsWellFormed(members[i].value);
      }
    case _ =>
  }

  // ---------------------------------------------------------------- normalisation on the server

  function JoinSpaced(parts: seq<text>): text {
    if |parts| == 0 then [] else if |parts| == 1 then parts[0] else parts[0] + [32] + JoinSpaced(parts[1..])
  }

  function ByCodePoint(): (Entry, Entry) -> bool {
    (a: Entry, b: Entry) => LessByCodePoint(a.key, b.key)
  }

  /** `fmt.Sprint`: a missing value is `<nil>`, and a number the text it was sent as. */
  function Sprint(v: Json): text {
    match v
    case Null => Ascii("<nil>")
    case Bool(b) => Literal(b)
    case Num(n) => FormatNumber(n)
    case Str(s) => s
    case Arr(items) => [91] + JoinSpaced(seq(|items|, i requires 0 <= i < |items| => Sprint(items[i]))) + [93]
    case Obj(members) =>
      var entries := seq(|members|, i requires 0 <= i < |members| =>
        Entry(members[i].key, members[i].key + COLON + Sprint(members[i].value)));
      Ascii("map[") + JoinSpaced(Map(PrintedOf(), Sort(entries, ByCodePoint()))) + [93]
  }

  function PathLess(): (Json, Json) -> bool {
    (a: Json, b: Json) => LessByCodePoint(Sprint(a), Sprint(b))
  }

  datatype Side = Client | Server

  /** The less functions of the two sides; those of entities and mappings are the same. */
  function LessOn(side: Side, kind: SetKind): (Json, Json) -> bool {
    if side.Server? && kind == Paths then PathLess() else SetLess(kind)
  }

  function SortSetOn(side: Side, key: text, v: Json): Json {
    if v.Arr? && KindOf(key).Some? then Arr(Sort(v.items, LessOn(side, KindOf(key).value))) else v
  }

  /** `normalizeMobileV2SemanticSets`, which both sides have. */
  function NormalizeOn(side: Side, v: Json): Json {
    match v
    case Arr(items) => Arr(seq(|items|, i requires 0 <= i < |items| => NormalizeOn(side, items[i])))
    case Obj(members) => Obj(MembersOn(side, members))
    case _ => v
  }

  function MembersOn(side: Side, members: seq<Member>): (r: seq<Member>)
    ensures |r| == |members|
    ensures forall i :: 0 <= i < |members| ==>
      r[i] == Member(members[i].key, SortSetOn(side, members[i].key, NormalizeOn(side, members[i].value)))
  {
    seq(|members|, i requires 0 <= i < |members| =>
      Member(members[i].key, SortSetOn(side, members[i].key, NormalizeOn(side, members[i].value))))
  }

  /** The client's pass is the one its digest uses. */
  lemma {:induction false} ClientNormalizes(v: Json)
    ensures NormalizeOn(Client, v) == Normalize(v)
  {
    match v
    case Arr(items) =>
      forall i | 0 <= i < |items|
        ensures NormalizeOn(Client, items[i]) == Normalize(items[i])
      {
        ClientNormalizes(items[i]);
      }
      assert NormalizeOn(Client, v).items == Normalize(v).items;
    case Obj(members) =>
      forall i | 0 <= i < |members|
        ensures MembersOn(Client, members)[i] == NormalizeMembers(members)[i]
      {
        ClientNormalizes(members[i].value);
      }
      assert MembersOn(Client, members) == NormalizeMembers(members);
    case _ =>
  }

  /** The text the server hashes for a message; a key that occurs twice is refused. */
  function ServerText(message: Json): Option<text> {
    var r := Received(message);
    if r.Obj? && Valid(r) then Some(CanonicalizeValue(NormalizeOn(Server, Obj(Without(r.members))))) else None
  }

  /** `RequestDigest` */
  function ServerDigestOf(message: Json): Option<text> {
    match ServerText(message)
    case None => None
    case Some(t) => Some(Sha256Text(t))
  }

  // ---------------------------------------------------------------- where the two sorts agree

  /** Both sides put a path in front of an earlier one, or neither does. */
  predicate AgreeOn(items: seq<Json>) {
    forall i, j :: 0 <= i < j < |items| ==>
      items[i] == items[j] || SetLess(Paths)(items[j], items[i]) == PathLess()(items[j], items[i])
  }

  /** Two orders that agree on every later and earlier pair insert alike. */
  lemma {:induction false} SameInsert<T>(s: seq<T>, x: T, less: (T, T) -> bool, other: (T, T) -> bool)
    requires forall i :: 0 <= i < |s| ==> less(x, s[i]) == other(x, s[i])
    ensures Insert(s, x, less) == Insert(s, x, other)
  {
    if |s| > 0 {
      SameInsert(s[..|s| - 1], x, less, other);
    }
  }

  lemma {:induction false} SameSort<T>(xs: seq<T>, less: (T, T) -> bool, other: (T, T) -> bool)
    requires forall i, j :: 0 <= i < j < |xs| ==> less(xs[j], xs[i]) == other(xs[j], xs[i])
    ensures Sort(xs, less) == Sort(xs, other)
  {
    hide Sort, Insert;
    var n := |xs|;
    SortUnfold(xs, less);
    SortUnfold(xs, other);
    if n > 0 {
      SameSort(xs[..n - 1], less, other);
      var s := Sort(xs[..n - 1], less);
      forall i | 0 <= i < |s|
        ensures less(xs[n - 1], s[i]) == other(xs[n - 1], s[i])
      {
        SortMember(xs[..n - 1], less, s[i]);
        var j :| 0 <= j < n - 1 && xs[..n - 1][j] == s[i];
      }
      SameInsert(s, xs[n - 1], less, other);
    }
  }

  /** A new element goes in front of larger ones only. */
  lemma {:induction false} InsertPlace<T>(s: seq<T>, x: T, less: (T, T) -> bool) returns (m: nat)
    ensures m <= |s| && Insert(s, x, less) == s[..m] + [x] + s[m..]
    ensures forall i :: m <= i < |s| ==> less(x, s[i])
  {
    var n := |s|;
    m := n;
    if n > 0 && less(x, s[n - 1]) {
      m := InsertPlace(s[..n - 1], x, less);
      assert s[..n - 1][..m] == s[..m] && s[..n - 1][m..] + [s[n - 1]] == s[m..];
    } else {
      assert s[..n] == s && s[n..] == [];
    }
  }

  lemma Shifted<T>(s: seq<T>, x: T, m: nat, p: nat)
    requires m <= |s| && p < |s|
    ensures (s[..m] + [x] + s[m..])[if p < m then p else p + 1] == s[p]
    ensures (s[..m] + [x] + s[m..])[m] == x
  {
  }

  /** The sort keeps an earlier element in front of a later one that is not smaller. */
  lemma {:induction false} SortKeepsOrder<T>(xs: seq<T>, less: (T, T) -> bool, i: nat, j: nat)
    returns (p: nat, q: nat)
    requires i < j < |xs| && !less(xs[j], xs[i])
    ensures p < q < |xs| && Sort(xs, less)[p] == xs[i] && Sort(xs, less)[q] == xs[j]
    decreases |xs|
  {
    hide Sort, Insert;
    var n := |xs|;
    var front := xs[..n - 1];
    var s := Sort(front, less);
    SortUnfold(xs, less);
    var m := InsertPlace(s, xs[n - 1], less);
    if j < n - 1 {
      p, q := SortKeepsOrder(front, less, i, j);
      Shifted(s, xs[n - 1], m, p);
      Shifted(s, xs[n - 1], m, q);
      p, q := if p < m then p else p + 1, if q < m then q else q + 1;
    } else {
      assert front[i] == xs[i];
      SortMember(front, less, xs[i]);
      p :| p < |s| && s[p] == xs[i];
      Shifted(s, xs[n - 1], m, p);
      q := m;
    }
  }

  /** Two sorts of one list differ if one of them moves a later element in front of a different earlier one. */
  lemma SortsDiffer<T(!new)>(xs: seq<T>, less: (T, T) -> bool, other: (T, T) -> bool, i: nat, j: nat)
    requires StrictWeakOrder(less) && i < j < |xs| && less(xs[j], xs[i]) && !other(xs[j], xs[i])
    ensures Sort(xs, less) != Sort(xs, other)
  {
    hide StrictWeakOrder, Sort;
    SortSorted(xs, less);
    var p, q := SortKeepsOrder(xs, other, i, j);
  }

  lemma PathLessIsOrder()
    ensures StrictWeakOrder(PathLess())
  {
    hide Sprint;
    forall x: Json, y: Json
      ensures PathLess()(x, y) ==> !PathLess()(y, x)
    {
      CodePointOrder(Sprint(x), Sprint(y), Sprint(x));
    }
    forall x: Json, y: Json, z: Json
      ensures PathLess()(x, y) && PathLess()(y, z) ==> PathLess()(x, z)
      ensures !PathLess()(x, y) && !PathLess()(y, z) ==> !PathLess()(x, z)
    {
      CodePointOrder(Sprint(x), Sprint(y), Sprint(z));
      CodePointOrder(Sprint(y), Sprint(z), Sprint(x));
      CodePointOrder(Sprint(z), Sprint(y), Sprint(x));
      CodePointOrder(Sprint(y), Sprint(x), Sprint(z));
    }
  }

  /** The two sorts of a list of paths agree exactly when they agree on its pairs. */
  lemma PathSortsAgreeIff(items: seq<Json>)
    ensures Sort(items, SetLess(Paths)) == Sort(items, PathLess()) <==> AgreeOn(items)
  {
    hide Sort, StrictWeakOrder, Sprint, KeyOf;
    SetLessIsOrder(Paths);
    PathLessIsOrder();
    if AgreeOn(items) {
      forall i, j | 0 <= i < j < |items|
        ensures SetLess(Paths)(items[j], items[i]) == PathLess()(items[j], items[i])
      {
        if items[i] == items[j] {
          NotBelowItself(items[i]);
        }
      }
      SameSort(items, SetLess(Paths), PathLess());
    } else {
      var i, j :| 0 <= i < j < |items| && items[i] != items[j]
        && SetLess(Paths)(items[j], items[i]) != PathLess()(items[j], items[i]);
      if SetLess(Paths)(items[j], items[i]) {
        SortsDiffer(items, SetLess(Paths), PathLess(), i, j);
      } else {
        SortsDiffer(items, PathLess(), SetLess(Paths), i, j);
      }
    }
  }

  lemma NotBelowItself(v: Json)
    ensures !SetLess(Paths)(v, v) && !PathLess()(v, v)
  {
    hide Sprint, KeyOf;
    LessKeyOrder(KeyOf(Paths, v), KeyOf(Paths, v), KeyOf(Paths, v));
    CodePointOrder(Sprint(v), Sprint(v), Sprint(v));
  }

  // ---------------------------------------------------------------- the order of members

  /** What is printed of a value on one side, and of the value of a member. */
  function Printed(side: Side, v: Json): Json {
    SortKeys(NormalizeOn(side, v))
  }

  function PrintedFn(side: Side): Json -> Json {
    (v: Json) => Printed(side, v)
  }

  function PrintedUnder(side: Side, key: text, v: Json): Json {
    SortKeys(SortSetOn(side, key, NormalizeOn(side, v)))
  }

  function SprintEntry(): Member -> Entry {
    (m: Member) => Entry(m.key, m.key + COLON + Sprint(m.value))
  }

  lemma EntryTies(xs: seq<Member>)
    requires DistinctKeys(xs)
    ensures TiesEqual(Map(SprintEntry(), xs), ByCodePoint())
  {
    hide Sprint, Map;
    var es := Map(SprintEntry(), xs);
    forall i, j | 0 <= i < |es| && 0 <= j < |es|
      ensures es[i] == es[j] || ByCodePoint()(es[i], es[j]) || ByCodePoint()(es[j], es[i])
    {
      CodePointOrder(es[i].key, es[j].key, es[i].key);
    }
  }

  lemma ByCodePointIsOrder()
    ensures StrictWeakOrder(ByCodePoint())
  {
    forall x: Entry, y: Entry
      ensures ByCodePoint()(x, y) ==> !ByCodePoint()(y, x)
    {
      CodePointOrder(x.key, y.key, x.key);
    }
    forall x: Entry, y: Entry, z: Entry
      ensures ByCodePoint()(x, y) && ByCodePoint()(y, z) ==> ByCodePoint()(x, z)
      ensures !ByCodePoint()(x, y) && !ByCodePoint()(y, z) ==> !ByCodePoint()(x, z)
    {
      CodePointOrder(x.key, y.key, z.key);
      CodePointOrder(y.key, z.key, x.key);
      CodePointOrder(z.key, y.key, x.key);
      CodePointOrder(y.key, x.key, z.key);
    }
  }

  lemma SprintObject(members: seq<Member>)
    ensures Sprint(Obj(members))
         == Ascii("map[") + JoinSpaced(Map(PrintedOf(), Sort(Map(SprintEntry(), members), ByCodePoint()))) + [93]
  {
    hide Sort;
    var entries := seq(|members|, i requires 0 <= i < |members| =>
      Entry(members[i].key, members[i].key + COLON + Sprint(members[i].value)));
    assert entries == Map(SprintEntry(), members);
  }

  /** `fmt.Sprint` does not show the order of members. */
  lemma {:induction false} SprintKept(v: Json)
    requires Valid(v)
    ensures Sprint(SortKeys(v)) == Sprint(v)
  {
    match v
    case Arr(items) =>
      forall i | 0 <= i < |items|
        ensures Sprint(SortKeys(items[i])) == Sprint(items[i])
      {
        SprintKept(items[i]);
      }
      var sorted := SortKeys(v).items;
      assert seq(|items|, i requires 0 <= i < |items| => Sprint(items[i]))
          == seq(|sorted|, i requires 0 <= i < |sorted| => Sprint(sorted[i]));
    case Obj(members) =>
      forall i | 0 <= i < |members|
        ensures SprintEntry()(SortedValues(members)[i]) == SprintEntry()(members[i])
      {
        SprintKept(members[i].value);
      }
      SprintMembers(members);
    case _ =>
  }

  lemma SprintMembers(members: seq<Member>)
    requires DistinctKeys(members)
    requires forall i :: 0 <= i < |members| ==> SprintEntry()(SortedValues(members)[i]) == SprintEntry()(members[i])
    ensures Sprint(SortKeys(Obj(members))) == Sprint(Obj(members))
  {
    hide Sprint, Sort, StrictWeakOrder, TiesEqual, JoinSpaced;
    var xs := SortedValues(members);
    var r := Sort(xs, KeyLess());
    MembersSorted(members);
    SprintObject(members);
    SprintObject(r);
    assert Map(SprintEntry(), xs) == Map(SprintEntry(), members);
    SortPermutes(xs, KeyLess());
    MapMultiset(SprintEntry(), r, xs);
    EntryTies(members);
    ByCodePointIsOrder();
    SortPermuted(Map(SprintEntry(), xs), Map(SprintEntry(), r), ByCodePoint());
  }

  lemma MembersSorted(ms: seq<Member>)
    ensures SortKeys(Obj(ms)) == Obj(Sort(SortedValues(ms), KeyLess()))
  {
  }

  lemma LessIgnoresMembers(side: Side, kind: SetKind, v: Json, w: Json)
    requires Valid(v) && Valid(w)
    ensures LessOn(side, kind)(SortKeys(v), SortKeys(w)) == LessOn(side, kind)(v, w)
  {
    hide SortKeys, Sprint, KeyOf, Valid;
    KeyKept(kind, v);
    KeyKept(kind, w);
    SprintKept(v);
    SprintKept(w);
  }

  lemma {:induction false} NormalizedValid(side: Side, v: Json)
    requires Valid(v)
    ensures Valid(NormalizeOn(side, v))
  {
    match v
    case Arr(items) =>
      forall i | 0 <= i < |items|
        ensures Valid(NormalizeOn(side, items[i]))
      {
        NormalizedValid(side, items[i]);
      }
    case Obj(members) =>
      forall i | 0 <= i < |members|
        ensures Valid(MembersOn(side, members)[i].value)
      {
        NormalizedValid(side, members[i].value);
        SortedSetValid(side, members[i].key, NormalizeOn(side, members[i].value));
      }
    case _ =>
  }

  lemma SortedSetValid(side: Side, key: text, v: Json)
    requires Valid(v)
    ensures Valid(SortSetOn(side, key, v))
  {
    hide LessOn, Sort;
    if v.Arr? && KindOf(key).Some? {
      var less := LessOn(side, KindOf(key).value);
      forall i | 0 <= i < |v.items|
        ensures Valid(Sort(v.items, less)[i])
      {
        SortMember(v.items, less, Sort(v.items, less)[i]);
      }
    }
  }

  lemma PrintedValid(side: Side, v: Json)
    requires Valid(v)
    ensures Valid(Printed(side, v))
  {
    NormalizedValid(side, v);
    SortKeysValid(NormalizeOn(side, v));
  }

  lemma PrintedItems(side: Side, items: seq<Json>)
    ensures Printed(side, Arr(items)) == Arr(Map(PrintedFn(side), items))
  {
    var v := NormalizeOn(side, Arr(items));
    assert SortKeys(v).items == Map(PrintedFn(side), items);
  }

  /** A printed set is the sorted list of its printed elements. */
  lemma PrintedSet(side: Side, key: text, items: seq<Json>)
    requires KindOf(key).Some? && forall i :: 0 <= i < |items| ==> Valid(items[i])
    ensures PrintedUnder(side, key, Arr(items))
         == Arr(Sort(Map(PrintedFn(side), items), LessOn(side, KindOf(key).value)))
  {
    hide LessOn, Sort, Valid;
    var less := LessOn(side, KindOf(key).value);
    var us := NormalizeOn(side, Arr(items)).items;
    forall x, y | x in us && y in us
      ensures less(x, y) == less(SortKeysFn()(x), SortKeysFn()(y))
    {
      var i :| 0 <= i < |us| && us[i] == x;
      var j :| 0 <= j < |us| && us[j] == y;
      NormalizedValid(side, items[i]);
      NormalizedValid(side, items[j]);
      LessIgnoresMembers(side, KindOf(key).value, x, y);
    }
    SortMap(SortKeysFn(), us, less, less);
    assert Map(SortKeysFn(), us) == Map(PrintedFn(side), items);
    var sorted := Sort(us, less);
    assert SortKeys(Arr(sorted)).items == Map(SortKeysFn(), sorted);
  }

  lemma PrintedPlain(side: Side, key: text, v: Json)
    ensures !(KindOf(key).Some? && v.Arr?) ==> PrintedUnder(side, key, v) == Printed(side, v)
    ensures PrintedUnder(side, key, v).Arr? == v.Arr? == Printed(side, v).Arr?
  {
  }

  function PrintedMembers(side: Side, members: seq<Member>): (r: seq<Member>)
    ensures |r| == |members|
    ensures forall i :: 0 <= i < |members| ==>
      r[i] == Member(members[i].key, PrintedUnder(side, members[i].key, members[i].value))
  {
    seq(|members|, i requires 0 <= i < |members| =>
      Member(members[i].key, PrintedUnder(side, members[i].key, members[i].value)))
  }

  lemma PrintedObject(side: Side, members: seq<Member>)
    ensures Printed(side, Obj(members)) == Obj(Sort(PrintedMembers(side, members), KeyLess()))
  {
    hide Sort, SortSetOn, NormalizeOn;
    assert NormalizeOn(side, Obj(members)) == Obj(MembersOn(side, members)) by { ObjectOn(side, members); }
    MembersSorted(MembersOn(side, members));
    assert SortedValues(MembersOn(side, members)) == PrintedMembers(side, members);
  }

  lemma ObjectOn(side: Side, members: seq<Member>)
    ensures NormalizeOn(side, Obj(members)) == Obj(MembersOn(side, members))
  {
  }

  /** What is printed does not depend on the order of members, whatever ties. */
  lemma {:induction false} PrintedOfSame(side: Side, v: Json, w: Json)
    requires Valid(v) && Valid(w) && SameUpToKeyOrder(v, w)
    ensures Printed(side, v) == Printed(side, w)
    decreases v, 0
  {
    hide Printed, SortKeys, NormalizeOn;
    match (v, w)
    case (Arr(xs), Arr(ys)) =>
      forall i | 0 <= i < |xs|
        ensures Printed(side, xs[i]) == Printed(side, ys[i])
      {
        PrintedOfSame(side, xs[i], ys[i]);
      }
      PrintedItems(side, xs);
      PrintedItems(side, ys);
      assert Map(PrintedFn(side), xs) == Map(PrintedFn(side), ys);
    case (Obj(ms), Obj(ns)) =>
      forall m | m in PrintedMembers(side, ms)
        ensures m in PrintedMembers(side, ns)
      {
        var i :| 0 <= i < |ms| && PrintedMembers(side, ms)[i] == m;
        var j :| 0 <= j < |ns| && ms[i].key == ns[j].key && SameUpToKeyOrder(ms[i].value, ns[j].value);
        PrintedOfSameUnder(side, ms[i].key, ms[i].value, ns[j].value);
        assert PrintedMembers(side, ns)[j] == m;
      }
      PrintedOfMatched(side, ms, ns);
    case _ =>
  }

  lemma PrintedOfMatched(side: Side, ms: seq<Member>, ns: seq<Member>)
    requires DistinctKeys(ms) && |ms| == |ns|
    requires forall m :: m in PrintedMembers(side, ms) ==> m in PrintedMembers(side, ns)
    ensures Printed(side, Obj(ms)) == Printed(side, Obj(ns))
  {
    hide Printed, PrintedUnder, Sort, StrictWeakOrder, Strict;
    var xs, ys := PrintedMembers(side, ms), PrintedMembers(side, ns);
    PrintedObject(side, ms);
    PrintedObject(side, ns);
    DistinctSubset(xs, ys);
    KeyLessIsOrder();
    DistinctKeysAreStrict(xs);
    SortPermuted(xs, ys, KeyLess());
  }

  lemma {:induction false} PrintedOfSameUnder(side: Side, key: text, v: Json, w: Json)
    requires Valid(v) && Valid(w) && SameUpToKeyOrder(v, w)
    ensures PrintedUnder(side, key, v) == PrintedUnder(side, key, w)
    decreases v, 1
  {
    hide PrintedUnder, Printed, LessOn, Sort, KindOf;
    PrintedPlain(side, key, v);
    PrintedPlain(side, key, w);
    if KindOf(key).Some? && v.Arr? && w.Arr? {
      forall i | 0 <= i < |v.items|
        ensures Printed(side, v.items[i]) == Printed(side, w.items[i])
      {
        PrintedOfSame(side, v.items[i], w.items[i]);
      }
      assert Map(PrintedFn(side), v.items) == Map(PrintedFn(side), w.items);
      PrintedSet(side, key, v.items);
      PrintedSet(side, key, w.items);
    } else {
      PrintedOfSame(side, v, w);
    }
  }

  lemma PrintedIsNormal(v: Json)
    ensures Printed(Client, v) == Normal(v)
  {
    ClientNormalizes(v);
  }

  /** The client's normal form does not depend on the order of members, whatever ties. */
  lemma NormalOfSame(v: Json, w: Json)
    requires Valid(v) && Valid(w) && SameUpToKeyOrder(v, w)
    ensures Normal(v) == Normal(w)
  {
    PrintedIsNormal(v);
    PrintedIsNormal(w);
    PrintedOfSame(Client, v, w);
  }

  // ---------------------------------------------------------------- printing twice

  lemma {:induction false} NormalizedTwice(side: Side, v: Json)
    ensures NormalizeOn(side, NormalizeOn(side, v)) == NormalizeOn(side, v)
  {
    match v
    case Arr(items) =>
      forall i | 0 <= i < |items|
        ensures NormalizeOn(side, NormalizeOn(side, items[i])) == NormalizeOn(side, items[i])
      {
        NormalizedTwice(side, items[i]);
      }
    case Obj(members) =>
      var once := MembersOn(side, members);
      var twice := MembersOn(side, once);
      forall i | 0 <= i < |members|
        ensures twice[i] == once[i]
      {
        NormalizedTwice(side, members[i].value);
        SortedTwice(side, members[i].key, NormalizeOn(side, members[i].value));
      }
      assert twice == once;
    case _ =>
  }

  lemma LessOnIsOrder(side: Side, kind: SetKind)
    ensures StrictWeakOrder(LessOn(side, kind))
  {
    hide StrictWeakOrder, SetLess, PathLess;
    SetLessIsOrder(kind);
    PathLessIsOrder();
  }

  lemma SortedTwice(side: Side, key: text, v: Json)
    requires NormalizeOn(side, v) == v
    ensures var r := SortSetOn(side, key, v); NormalizeOn(side, r) == r && SortSetOn(side, key, r) == r
  {
    hide LessOn, StrictWeakOrder;
    if v.Arr? && KindOf(key).Some? {
      var less := LessOn(side, KindOf(key).value);
      var r := Sort(v.items, less);
      forall i | 0 <= i < |r|
        ensures NormalizeOn(side, r[i]) == r[i]
      {
        SortMember(v.items, less, r[i]);
        var j :| 0 <= j < |v.items| && v.items[j] == r[i];
        assert NormalizeOn(side, v).items[j] == NormalizeOn(side, v.items[j]);
      }
      assert NormalizeOn(side, Arr(r)).items == r;
      LessOnIsOrder(side, KindOf(key).value);
      SortSorted(v.items, less);
      SortIdempotent(r, less);
    }
  }

  /** What is printed is printed as it is. */
  lemma PrintedTwice(side: Side, v: Json)
    requires Valid(v)
    ensures Printed(side, Printed(side, v)) == Printed(side, v)
  {
    hide NormalizeOn, SortKeys, SameUpToKeyOrder, Valid;
    var n := NormalizeOn(side, v);
    NormalizedValid(side, v);
    SortKeysValid(n);
    SortKeysIdempotent(n);
    SameNormalForm(SortKeys(n), n);
    PrintedOfSame(side, SortKeys(n), n);
    NormalizedTwice(side, v);
  }

  // ---------------------------------------------------------------- the condition

  /** In every list of paths the two sides agree on the order of its normal forms, at every depth. */
  predicate PathsAgree(v: Json)
    decreases v, 0
  {
    match v
    case Arr(items) => forall i :: 0 <= i < |items| ==> PathsAgree(items[i])
    case Obj(members) => forall i :: 0 <= i < |members| ==> PathsAgreeUnder(members[i].key, members[i].value)
    case _ => true
  }

  predicate PathsAgreeUnder(key: text, v: Json)
    decreases v, 1
  {
    PathsAgree(v) && (KindOf(key) == Some(Paths) && v.Arr? ==> AgreeOn(Map(NormalFn(), v.items)))
  }

  lemma NormalItemsPrinted(items: seq<Json>)
    ensures Map(NormalFn(), items) == Map(PrintedFn(Client), items)
  {
    hide Normal, Printed;
    forall i | 0 <= i < |items|
      ensures Normal(items[i]) == Printed(Client, items[i])
    {
      PrintedIsNormal(items[i]);
    }
  }

  lemma {:induction false} AgreeingPrinted(v: Json)
    requires Valid(v) && PathsAgree(v)
    ensures Printed(Server, v) == Printed(Client, v)
    decreases v, 0
  {
    hide Printed;
    match v
    case Arr(items) =>
      forall i | 0 <= i < |items|
        ensures Printed(Server, items[i]) == Printed(Client, items[i])
      {
        AgreeingPrinted(items[i]);
      }
      PrintedItems(Server, items);
      PrintedItems(Client, items);
      assert Map(PrintedFn(Server), items) == Map(PrintedFn(Client), items);
    case Obj(members) =>
      forall i | 0 <= i < |members|
        ensures PrintedMembers(Server, members)[i] == PrintedMembers(Client, members)[i]
      {
        AgreeingUnder(members[i].key, members[i].value);
      }
      assert PrintedMembers(Server, members) == PrintedMembers(Client, members);
      PrintedObject(Server, members);
      PrintedObject(Client, members);
    case _ => PlainPrinted(v);
  }

  lemma PlainPrinted(v: Json)
    requires !v.Arr? && !v.Obj?
    ensures forall side :: Printed(side, v) == v
  {
  }

  lemma {:induction false} AgreeingUnder(key: text, v: Json)
    requires Valid(v) && PathsAgreeUnder(key, v)
    ensures PrintedUnder(Server, key, v) == PrintedUnder(Client, key, v)
    decreases v, 1
  {
    hide Printed, PrintedUnder, SetLess, PathLess, AgreeOn, Sort;
    if KindOf(key).Some? && v.Arr? {
      forall i | 0 <= i < |v.items|
        ensures Printed(Server, v.items[i]) == Printed(Client, v.items[i])
      {
        AgreeingPrinted(v.items[i]);
      }
      var us := Map(PrintedFn(Client), v.items);
      assert Map(PrintedFn(Server), v.items) == us;
      PrintedSet(Server, key, v.items);
      PrintedSet(Client, key, v.items);
      NormalItemsPrinted(v.items);
      PathSortsAgreeIff(us);
    } else {
      PrintedPlain(Server, key, v);
      PrintedPlain(Client, key, v);
      AgreeingPrinted(v);
    }
  }

  // ---------------------------------------------------------------- the condition is needed

  function Other(side: Side): Side {
    if side.Client? then Server else Client
  }

  /** What one side prints is printed as it is by the other. */
  predicate Stable(v: Json) {
    forall side: Side :: Printed(Other(side), Printed(side, v)) == Printed(side, v)
  }

  predicate StableUnder(key: text, v: Json) {
    forall side: Side :: PrintedUnder(Other(side), key, PrintedUnder(side, key, v)) == PrintedUnder(side, key, v)
  }

  /** A set printed as it is has elements that are, and is sorted. */
  lemma SetAsItIs(side: Side, key: text, ys: seq<Json>)
    requires KindOf(key).Some? && PrintedUnder(side, key, Arr(ys)) == Arr(ys)
    requires forall j :: 0 <= j < |ys| ==> Valid(ys[j])
    ensures forall j :: 0 <= j < |ys| ==> Printed(side, ys[j]) == ys[j]
    ensures Sorted(ys, LessOn(side, KindOf(key).value))
  {
    hide Printed, PrintedUnder, LessOn, Sort, StrictWeakOrder, Valid;
    var less := LessOn(side, KindOf(key).value);
    var us := Map(PrintedFn(side), ys);
    PrintedSet(side, key, ys);
    LessOnIsOrder(side, KindOf(key).value);
    SortSorted(us, less);
    forall j | 0 <= j < |ys|
      ensures Printed(side, ys[j]) == ys[j]
    {
      SortMember(us, less, ys[j]);
      var k :| 0 <= k < |us| && us[k] == ys[j];
      PrintedTwice(side, ys[k]);
    }
  }

  /** If the result of each of two sorts is sorted for the other, they agree on every pair. */
  lemma BothSorted(us: seq<Json>)
    requires Sorted(Sort(us, SetLess(Paths)), PathLess()) && Sorted(Sort(us, PathLess()), SetLess(Paths))
    ensures AgreeOn(us)
  {
    hide Sort, Sprint, KeyOf;
    forall i, j | 0 <= i < j < |us|
      ensures SetLess(Paths)(us[j], us[i]) == PathLess()(us[j], us[i])
    {
      if !SetLess(Paths)(us[j], us[i]) {
        var p, q := SortKeepsOrder(us, SetLess(Paths), i, j);
      }
      if !PathLess()(us[j], us[i]) {
        var p, q := SortKeepsOrder(us, PathLess(), i, j);
      }
    }
  }

  lemma {:induction false} StableAgrees(v: Json)
    requires Valid(v) && Stable(v)
    ensures PathsAgree(v)
    decreases v, 0
  {
    hide Printed, Stable, StableUnder;
    match v
    case Arr(items) =>
      forall i | 0 <= i < |items|
        ensures PathsAgree(items[i])
      {
        StableItem(items, i);
        StableAgrees(items[i]);
      }
    case Obj(members) =>
      forall i | 0 <= i < |members|
        ensures PathsAgreeUnder(members[i].key, members[i].value)
      {
        StableMember(members, i);
        StableAgreesUnder(members[i].key, members[i].value);
      }
    case _ =>
  }

  lemma StableItem(items: seq<Json>, i: nat)
    requires Stable(Arr(items)) && i < |items|
    ensures Stable(items[i])
  {
    hide Printed;
    forall side: Side
      ensures Printed(Other(side), Printed(side, items[i])) == Printed(side, items[i])
    {
      var us := Map(PrintedFn(side), items);
      PrintedItems(side, items);
      PrintedItems(Other(side), us);
      assert Map(PrintedFn(Other(side)), us)[i] == us[i];
    }
  }

  /** An object printed as it is has members that are. */
  lemma ObjectAsItIs(side: Side, r: seq<Member>, j: nat)
    requires Printed(side, Obj(r)) == Obj(r) && Sorted(r, KeyLess()) && j < |r|
    ensures PrintedUnder(side, r[j].key, r[j].value) == r[j].value
  {
    hide Printed, PrintedUnder, Sort;
    var t := PrintedMembers(side, r);
    PrintedObject(side, r);
    SortIdempotent(t, KeyLess());
    assert t[j] == r[j];
  }

  lemma StableMember(members: seq<Member>, i: nat)
    requires Stable(Obj(members)) && i < |members|
    ensures StableUnder(members[i].key, members[i].value)
  {
    hide Printed, PrintedUnder, StrictWeakOrder, Sorted;
    forall side: Side
      ensures var u := PrintedUnder(side, members[i].key, members[i].value);
        PrintedUnder(Other(side), members[i].key, u) == u
    {
      var t := PrintedMembers(side, members);
      var r := Sort(t, KeyLess());
      PrintedObject(side, members);
      assert Printed(Other(side), Printed(side, Obj(members))) == Printed(side, Obj(members));
      KeyLessIsOrder();
      SortSorted(t, KeyLess());
      SortMember(t, KeyLess(), t[i]);
      var j :| 0 <= j < |r| && r[j] == t[i];
      ObjectAsItIs(Other(side), r, j);
    }
  }

  lemma {:induction false} StableAgreesUnder(key: text, v: Json)
    requires Valid(v) && StableUnder(key, v)
    ensures PathsAgreeUnder(key, v)
    decreases v, 1
  {
    hide Printed, PrintedUnder, Stable, StableUnder, AgreeOn, Sort, Sorted, SetLess, PathLess;
    if KindOf(key).Some? && v.Arr? {
      StableSet(key, v.items);
      forall i | 0 <= i < |v.items|
        ensures PathsAgree(v.items[i]) && Printed(Server, v.items[i]) == Printed(Client, v.items[i])
      {
        StableAgrees(v.items[i]);
        AgreeingPrinted(v.items[i]);
      }
      var us := Map(PrintedFn(Client), v.items);
      assert Map(PrintedFn(Server), v.items) == us;
      NormalItemsPrinted(v.items);
      if KindOf(key) == Some(Paths) {
        BothSorted(us);
      }
    } else {
      StablePlain(key, v);
      StableAgrees(v);
    }
  }

  lemma StablePlain(key: text, v: Json)
    requires StableUnder(key, v) && !(KindOf(key).Some? && v.Arr?)
    ensures Stable(v)
  {
    hide Printed, PrintedUnder;
    forall side: Side
      ensures Printed(Other(side), Printed(side, v)) == Printed(side, v)
    {
      PrintedPlain(side, key, v);
      PrintedPlain(Other(side), key, Printed(side, v));
    }
  }

  lemma StableSet(key: text, items: seq<Json>)
    requires KindOf(key).Some? && StableUnder(key, Arr(items)) && forall i :: 0 <= i < |items| ==> Valid(items[i])
    ensures forall i :: 0 <= i < |items| ==> Stable(items[i])
    ensures forall side: Side :: var kind := KindOf(key).value;
      Sorted(Sort(Map(PrintedFn(side), items), LessOn(side, kind)), LessOn(Other(side), kind))
  {
    hide Printed, PrintedUnder, LessOn, Sort, Sorted, Valid;
    forall side: Side
      ensures forall i :: 0 <= i < |items| ==>
        Printed(Other(side), Printed(side, items[i])) == Printed(side, items[i])
      ensures var kind := KindOf(key).value;
        Sorted(Sort(Map(PrintedFn(side), items), LessOn(side, kind)), LessOn(Other(side), kind))
    {
      StableSetOn(side, key, items);
    }
  }

  lemma StableSetOn(side: Side, key: text, items: seq<Json>)
    requires KindOf(key).Some? && StableUnder(key, Arr(items)) && forall i :: 0 <= i < |items| ==> Valid(items[i])
    ensures forall i :: 0 <= i < |items| ==>
      Printed(Other(side), Printed(side, items[i])) == Printed(side, items[i])
    ensures var kind := KindOf(key).value;
      Sorted(Sort(Map(PrintedFn(side), items), LessOn(side, kind)), LessOn(Other(side), kind))
  {
    hide Printed, PrintedUnder, LessOn, Sort, Sorted, Valid;
    var us := Map(PrintedFn(side), items);
    var less := LessOn(side, KindOf(key).value);
    var ys := Sort(us, less);
    PrintedSet(side, key, items);
    forall j | 0 <= j < |ys|
      ensures Valid(ys[j])
    {
      SortMember(us, less, ys[j]);
      var k :| 0 <= k < |us| && us[k] == ys[j];
      PrintedValid(side, items[k]);
    }
    SetAsItIs(Other(side), key, ys);
    forall i | 0 <= i < |items|
      ensures Printed(Other(side), us[i]) == us[i]
    {
      SortMember(us, less, us[i]);
      var j :| 0 <= j < |ys| && ys[j] == us[i];
    }
  }

  /** The two sides print a value alike exactly when they agree on its paths. */
  lemma PrintedAlikeIff(v: Json)
    requires Valid(v)
    ensures Printed(Server, v) == Printed(Client, v) <==> PathsAgree(v)
  {
    hide Printed, PathsAgree, Valid;
    if PathsAgree(v) {
      AgreeingPrinted(v);
    }
    if Printed(Server, v) == Printed(Client, v) {
      PrintedTwice(Server, v);
      PrintedTwice(Client, v);
      StableAgrees(v);
    }
  }

  // ---------------------------------------------------------------- one digest

  lemma ServerTextIs(message: Json)
    requires message.Obj? && Valid(message) && WellFormedStrings(message)
    ensures ServerText(message) == Some(CanonicalizeValue(NormalizeOn(Server, Contents(message))))
  {
    ReceivedIsSent(message);
  }

  /** The two sides hash one text exactly when they agree on the paths of the message. */
  lemma TextsAgreeIff(v: Json)
    requires v.Obj? && Valid(v) && WellFormedStrings(v)
    ensures ServerText(v) == RequestText(v) <==> PathsAgree(Contents(v))
  {
    hide Normalize, NormalizeOn, CanonicalizeValue, Without, Valid, SameUpToKeyOrder, SortKeys, PathsAgree,
      WellFormedStrings, ServerText;
    var c := Contents(v);
    ContentsValid(v);
    ServerTextIs(v);
    ClientNormalizes(c);
    NormalizedValid(Server, c);
    NormalizedValid(Client, c);
    CanonicalInjective(NormalizeOn(Server, c), NormalizeOn(Client, c));
    SameNormalForm(NormalizeOn(Server, c), NormalizeOn(Client, c));
    PrintedAlikeIff(c);
  }

  /** The server's text of a message, with the members of every object in whatever order its maps list
      them, is the client's text of the envelope exactly when they agree on its paths; then the digests
      are equal and the command is accepted. */
  lemma ServerMatchesClient(v: Json, w: Json)
    requires v.Obj? && w.Obj? && Valid(v) && Valid(w) && WellFormedStrings(w)
    requires SameUpToKeyOrder(Contents(v), Contents(w))
    ensures ServerText(w) == RequestText(v) <==> PathsAgree(Contents(v))
    ensures PathsAgree(Contents(v)) ==> ServerDigestOf(w) == RequestDigest(v)
  {
    hide Normal, Printed, Contents, Valid, PathsAgree, ServerText, RequestText, WellFormedStrings, Sha256Text,
      SameUpToKeyOrder;
    ContentsValid(v);
    ContentsValid(w);
    PrintedOfSame(Server, Contents(v), Contents(w));
    PrintedOfSame(Client, Contents(v), Contents(w));
    PrintedAlikeIff(Contents(v));
    PrintedAlikeIff(Contents(w));
    TextsAgreeIff(w);
    NormalOfSame(Contents(v), Contents(w));
    RequestTextIsNormal(v, w);
  }

  // ---------------------------------------------------------------- paths that are strings, numbers, booleans or null

  /** The paths are strings, numbers, booleans or null, at every depth. */
  predicate LeafPaths(v: Json)
    decreases v, 0
  {
    match v
    case Arr(items) => forall i :: 0 <= i < |items| ==> LeafPaths(items[i])
    case Obj(members) => forall i :: 0 <= i < |members| ==> LeafPathsUnder(members[i].key, members[i].value)
    case _ => true
  }

  predicate LeafPathsUnder(key: text, v: Json)
    decreases v, 1
  {
    LeafPaths(v) && (KindOf(key) == Some(Paths) && v.Arr? ==> Leaves(v.items))
  }

  predicate Leaves(items: seq<Json>) {
    forall i :: 0 <= i < |items| ==> !items[i].Arr? && !items[i].Obj?
  }

  /** A null stays on one side of every other path, whether it is read as "null" or as "<nil>". */
  predicate NullsInPlace(items: seq<Json>) {
    forall i, j :: 0 <= i < j < |items| && items[i] != items[j] ==> NullInPlace(items[i], items[j])
  }

  predicate NullInPlace(earlier: Json, later: Json) {
    && (earlier.Null? ==>
          LessByCodePoint(JsString(later), NULL_TEXT) == LessByCodePoint(JsString(later), Ascii("<nil>")))
    && (later.Null? ==>
          LessByCodePoint(NULL_TEXT, JsString(earlier)) == LessByCodePoint(Ascii("<nil>"), JsString(earlier)))
  }

  /** The nulls among the paths stay in place, at every depth. */
  predicate NullsStay(v: Json)
    decreases v, 0
  {
    match v
    case Arr(items) => forall i :: 0 <= i < |items| ==> NullsStay(items[i])
    case Obj(members) => forall i :: 0 <= i < |members| ==> NullsStayUnder(members[i].key, members[i].value)
    case _ => true
  }

  predicate NullsStayUnder(key: text, v: Json)
    decreases v, 1
  {
    NullsStay(v) && (KindOf(key) == Some(Paths) && v.Arr? ==> NullsInPlace(v.items))
  }

  lemma LeafPrintedAlike(v: Json)
    requires !v.Arr? && !v.Obj? && !v.Null?
    ensures Sprint(v) == JsString(v)
  {
  }

  lemma OneKey(a: text, b: text)
    ensures LessKey([a], [b]) == LessByCodePoint(a, b)
  {
    CodePointOrder(a, b, a);
    assert [a][1..] == [] && [b][1..] == [];
  }

  lemma PathKeys(a: Json, b: Json)
    ensures SetLess(Paths)(a, b) == LessByCodePoint(JsString(a), JsString(b))
  {
    hide JsString, LessByCodePoint, LessKey;
    OneKey(JsString(a), JsString(b));
  }

  /** For leaves the two orders differ about nulls alone. */
  lemma AgreeIffNulls(items: seq<Json>)
    requires Leaves(items)
    ensures AgreeOn(items) <==> NullsInPlace(items)
  {
    hide Sprint, JsString, SetLess, PathLess, LessByCodePoint;
    forall i, j | 0 <= i < j < |items| && items[i] != items[j]
      ensures SetLess(Paths)(items[j], items[i]) == PathLess()(items[j], items[i]) <==> NullInPlace(items[i], items[j])
    {
      OnePair(items[i], items[j]);
    }
  }

  lemma OnePair(earlier: Json, later: Json)
    requires !earlier.Arr? && !earlier.Obj? && !later.Arr? && !later.Obj? && earlier != later
    ensures SetLess(Paths)(later, earlier) == PathLess()(later, earlier) <==> NullInPlace(earlier, later)
  {
    hide SetLess, LessByCodePoint;
    PathKeys(later, earlier);
    if !earlier.Null? {
      LeafPrintedAlike(earlier);
    }
    if !later.Null? {
      LeafPrintedAlike(later);
    }
  }

  lemma LeavesAreNormal(items: seq<Json>)
    requires Leaves(items)
    ensures Map(NormalFn(), items) == items
  {
    forall i | 0 <= i < |items|
      ensures Normal(items[i]) == items[i]
    {
    }
  }

  /** For such paths the condition is that no null moves when it is read as "<nil>". */
  lemma {:induction false} LeafPathsAgreeIff(v: Json)
    requires LeafPaths(v)
    ensures PathsAgree(v) <==> NullsStay(v)
    decreases v, 0
  {
    match v
    case Arr(items) =>
      forall i | 0 <= i < |items|
        ensures PathsAgree(items[i]) <==> NullsStay(items[i])
      {
        LeafPathsAgreeIff(items[i]);
      }
    case Obj(members) =>
      forall i | 0 <= i < |members|
        ensures PathsAgreeUnder(members[i].key, members[i].value) <==> NullsStayUnder(members[i].key, members[i].value)
      {
        LeafPathsUnderAgreeIff(members[i].key, members[i].value);
      }
    case _ =>
  }

  lemma {:induction false} LeafPathsUnderAgreeIff(key: text, v: Json)
    requires LeafPathsUnder(key, v)
    ensures PathsAgreeUnder(key, v) <==> NullsStayUnder(key, v)
    decreases v, 1
  {
    hide AgreeOn, NullsInPlace, Leaves, LeafPaths, PathsAgree, NullsStay;
    LeafPathsAgreeIff(v);
    if KindOf(key) == Some(Paths) && v.Arr? {
      LeavesAreNormal(v.items);
      AgreeIffNulls(v.items);
    }
  }

  /** No path is null, at every depth. */
  predicate NullFree(v: Json)
    decreases v, 0
  {
    match v
    case Arr(items) => forall i :: 0 <= i < |items| ==> NullFree(items[i])
    case Obj(members) => forall i :: 0 <= i < |members| ==> NullFreeUnder(members[i].key, members[i].value)
    case _ => true
  }

  predicate NullFreeUnder(key: text, v: Json)
    decreases v, 1
  {
    NullFree(v) && (KindOf(key) == Some(Paths) && v.Arr? ==> forall i :: 0 <= i < |v.items| ==> !v.items[i].Null?)
  }

  lemma {:induction false} NullFreeStays(v: Json)
    requires NullFree(v)
    ensures NullsStay(v)
    decreases v, 0
  {
    match v
    case Arr(items) =>
      forall i | 0 <= i < |items|
        ensures NullsStay(items[i])
      {
        NullFreeStays(items[i]);
      }
    case Obj(members) =>
      forall i | 0 <= i < |members|
        ensures NullsStayUnder(members[i].key, members[i].value)
      {
        NullFreeStays(members[i].value);
        assert NullFreeUnder(members[i].key, members[i].value);
      }
    case _ =>
  }

  /** Paths that are strings, numbers or booleans agree. */
  lemma NullFreeAgrees(v: Json)
    requires LeafPaths(v) && NullFree(v)
    ensures PathsAgree(v)
  {
    NullFreeStays(v);
    LeafPathsAgreeIff(v);
  }

  /** null is sorted as "null" by the client and as "<nil>" by the server. */
  lemma NullPathsDisagree(v: Json)
    requires v == Obj([Member(FIELD_PATHS, Arr([Null, Str([97])]))])
    ensures Valid(v) && WellFormedStrings(v) && ServerText(v) != RequestText(v)
  {
    hide SetLess, PathLess, ServerText, RequestText, KindOf, CodePoints, FIELD_PATHS, PathsAgree, PathsAgreeUnder;
    var xs := v.members[0].value.items;
    assert Without(v.members) == v.members by { PathsAreNotDropped(); assert v.members[1..] == []; }
    PathTextsWhole();
    NullAfterA();
    assert !NullInPlace(xs[0], xs[1]);
    assert !NullsInPlace(xs);
    PathsKind();
    assert LeafPathsUnder(FIELD_PATHS, v.members[0].value);
    assert !NullsStayUnder(v.members[0].key, v.members[0].value);
    LeafPathsAgreeIff(v);
    TextsAgreeIff(v);
  }

  lemma PathTextsWhole()
    ensures Utf8.WellFormed(FIELD_PATHS) && Utf8.WellFormed([97])
  {
    NoSurrogates(FIELD_PATHS);
    NoSurrogates([97]);
  }

  lemma PathsKind()
    ensures KindOf(FIELD_PATHS) == Some(Paths)
  {
    assert |FIELD_PATHS| == 11 && |ENTITIES| == 8 && |IDENTITY_MAPPINGS| == 17;
  }

  lemma NullAfterA()
    ensures !NullInPlace(Null, Str([97]))
  {
    var nil := Ascii("<nil>");
    assert nil[0] == 60 && NULL_TEXT[0] == 110;
    NoSurrogates([97]);
    NoSurrogates(nil);
    NoSurrogates(NULL_TEXT);
  }

  // ---------------------------------------------------------------- paths that are objects

  /** The client reads every object as "[object Object]" and leaves it where it is listed, so the two
      sides agree on objects exactly when these are listed in the server's order already. */
  lemma ObjectPathsAgreeIff(items: seq<Json>)
    requires forall i :: 0 <= i < |items| ==> items[i].Obj?
    ensures AgreeOn(items) <==> Sorted(items, PathLess())
  {
    hide PathLess, SetLess;
    forall i, j | 0 <= i < j < |items|
      ensures !SetLess(Paths)(items[j], items[i])
      ensures items[i] == items[j] ==> !PathLess()(items[j], items[i])
    {
      PathKeys(items[j], items[i]);
      CodePointOrder(JsString(items[j]), JsString(items[i]), JsString(items[j]));
      NotBelowItself(items[i]);
    }
  }

  // ---------------------------------------------------------------- what fmt.Sprint writes

  /** Parts with spaces between them, from the back. */
  function Spaced(parts: seq<text>): text {
    if |parts| == 0 then Ascii("")
    else
      var n := |parts| - 1;
      (if n == 0 then Ascii("") else Spaced(parts[..n]) + Ascii(" ")) + parts[n]
  }

  lemma {:induction false} SpacedLast(parts: seq<text>)
    requires |parts| > 1
    ensures JoinSpaced(parts) == JoinSpaced(parts[..|parts| - 1]) + Ascii(" ") + parts[|parts| - 1]
  {
    var n := |parts| - 1;
    assert Ascii(" ") == [32];
    if n > 1 {
      SpacedLast(parts[1..]);
      assert parts[1..][..n - 1] == parts[..n][1..];
      var front := JoinSpaced(parts[1..][..n - 1]);
      assert parts[0] + [32] + (front + [32] + parts[n]) == (parts[0] + [32] + front) + [32] + parts[n];
    } else {
      assert parts[1..] == [parts[1]] && parts[..1] == [parts[0]];
    }
  }

  lemma {:induction false} SpacedIs(parts: seq<text>)
    ensures JoinSpaced(parts) == Spaced(parts)
  {
    if |parts| > 1 {
      SpacedLast(parts);
      SpacedIs(parts[..|parts| - 1]);
    }
  }

  function SprintOf(items: seq<Json>): (r: seq<text>)
    ensures |r| == |items| && forall i :: 0 <= i < |items| ==> r[i] == Sprint(items[i])
  {
    seq(|items|, i requires 0 <= i < |items| => Sprint(items[i]))
  }

  /** The lines of a map: keys in code point order, a colon, the value. */
  ghost predicate AreLines(lines: seq<text>, members: seq<Member>) {
    exists order: seq<Member> ::
      && multiset(order) == multiset(members) && |lines| == |order|
      && (forall i, j :: 0 <= i < j < |order| ==> LessByCodePoint(order[i].key, order[j].key))
      && forall i :: 0 <= i < |order| ==> lines[i] == order[i].key + Ascii(":") + Sprint(order[i].value)
  }

  function ByKey(): (Member, Member) -> bool {
    (a: Member, b: Member) => LessByCodePoint(a.key, b.key)
  }

  /** Scalars are written as they are, a missing value as "<nil>". */
  lemma SprintScalar(v: Json)
    ensures v.Null? ==> Sprint(v) == Ascii("<nil>")
    ensures v.Bool? ==> Sprint(v) == if v.b then Ascii("true") else Ascii("false")
    ensures v.Num? ==> Sprint(v) == FormatNumber(v.n)
    ensures v.Str? ==> Sprint(v) == v.s
  {
  }

  /** Lists stand between brackets. */
  lemma SprintList(items: seq<Json>)
    ensures Sprint(Arr(items)) == Ascii("[") + Spaced(SprintOf(items)) + Ascii("]")
  {
    hide JoinSpaced, Spaced;
    assert SprintOf(items) == seq(|items|, i requires 0 <= i < |items| => Sprint(items[i]));
    SpacedIs(SprintOf(items));
    assert Ascii("[") == [91] && Ascii("]") == [93];
  }

  /** Maps have their entries in the order of their keys. */
  lemma MapLines(members: seq<Member>) returns (lines: seq<text>)
    requires DistinctKeys(members)
    ensures AreLines(lines, members) && Sprint(Obj(members)) == Ascii("map[") + Spaced(lines) + Ascii("]")
  {
    hide JoinSpaced, Spaced, Sprint, Sort, StrictWeakOrder, LessByCodePoint;
    var order := Sort(members, ByKey());
    var entries := Map(SprintEntry(), order);
    lines := Map(PrintedOf(), entries);
    SprintObject(members);
    SortMap(SprintEntry(), members, ByKey(), ByCodePoint());
    SpacedIs(lines);
    assert Ascii("]") == [93] && Ascii(":") == COLON;
    ByKeySorts(members);
  }

  lemma ByKeySorts(members: seq<Member>)
    requires DistinctKeys(members)
    ensures multiset(Sort(members, ByKey())) == multiset(members)
    ensures forall i, j :: 0 <= i < j < |members| ==>
      LessByCodePoint(Sort(members, ByKey())[i].key, Sort(members, ByKey())[j].key)
  {
    hide Sort, StrictWeakOrder, LessByCodePoint;
    var order := Sort(members, ByKey());
    ByKeyIsOrder();
    SortPermutes(members, ByKey());
    SortSorted(members, ByKey());
    forall i, j | 0 <= i < |members| && 0 <= j < |members| && i != j
      ensures ByKey()(members[i], members[j]) || ByKey()(members[j], members[i])
    {
      CodePointOrder(members[i].key, members[j].key, members[i].key);
    }
    StrictPermuted(members, order, ByKey());
  }

  lemma ByKeyIsOrder()
    ensures StrictWeakOrder(ByKey()) && forall x :: !ByKey()(x, x)
  {
    hide LessByCodePoint;
    forall x: Member, y: Member, z: Member
      ensures ByKey()(x, y) ==> !ByKey()(y, x)
      ensures ByKey()(x, y) && ByKey()(y, z) ==> ByKey()(x, z)
      ensures !ByKey()(x, y) && !ByKey()(y, z) ==> !ByKey()(x, z)
    {
      CodePointOrder(x.key, y.key, z.key);
      CodePointOrder(y.key, z.key, x.key);
      CodePointOrder(z.key, y.key, x.key);
      CodePointOrder(y.key, x.key, z.key);
    }
    forall x: Member
      ensures !ByKey()(x, x)
    {
      CodePointOrder(x.key, x.key, x.key);
    }
  }
}
