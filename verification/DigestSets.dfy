/** Which lists of an envelope are sets, and by what they are sorted, in terms of the members of the
    message alone: `requestDigest` of miniprogram/lib/digest.ts sorts `entities`, `identity_mappings` and
    `field_paths`, at every depth, and nothing else. */
module DigestSets {
  import opened Text
  import opened Sorting
  import opened Jcs
  import opened Wrappers
  import opened JsonParse
  import opened Bits
  import opened CanonicalText
  import opened Digest
  import Sha256
  import Utf8

  // ---------------------------------------------------------------- what an element says

  ghost predicate HasText(e: Json, key: text, s: text) {
    e.Obj? && Member(key, Str(s)) in e.members
  }

  /** The string under a key; there is none in anything but an object, and anything but a string counts
      as the empty one. */
  ghost function TextUnder(e: Json, key: text): text {
    if exists s :: HasText(e, key, s) then
      var s :| HasText(e, key, s);
      s
    else []
  }

  ghost predicate HasObject(e: Json, key: text, o: Json) {
    e.Obj? && o.Obj? && Member(key, o) in e.members
  }

  ghost predicate IsSchedule(e: Json, payload: Json) {
    && TextUnder(e, Ascii("entity_type")) == Ascii("schedule_version") && HasObject(e, Ascii("payload"), payload)
    && TextUnder(payload, Ascii("task_id")) != [] && TextUnder(payload, Ascii("schedule_revision")) != []
  }

  /** A schedule is identified by its task and its revision, anything else by the name the server gave it,
      or by the one the client did. */
  ghost function IdentityText(e: Json): text {
    if exists payload :: IsSchedule(e, payload) then
      var payload :| IsSchedule(e, payload);
      Ascii("k:") + TextUnder(payload, Ascii("task_id")) + Ascii("#") + TextUnder(payload, Ascii("schedule_revision"))
    else if TextUnder(e, Ascii("entity_id")) != [] then Ascii("s:") + TextUnder(e, Ascii("entity_id"))
    else Ascii("c:") + TextUnder(e, Ascii("client_id"))
  }

  lemma OneMember(members: seq<Member>, key: text, v: Json, w: Json)
    requires DistinctKeys(members) && Member(key, v) in members && Member(key, w) in members
    ensures v == w
  {
    var i :| 0 <= i < |members| && members[i] == Member(key, v);
    var j :| 0 <= j < |members| && members[j] == Member(key, w);
  }

  lemma FieldIsText(e: Json, key: text)
    requires Valid(e)
    ensures StringField(e, key) == TextUnder(e, key)
  {
    if e.Obj? {
      LookupFound(e.members, key);
      if exists s :: HasText(e, key, s) {
        var s := TextUnder(e, key);
        var v := Lookup(e.members, key).value;
        OneMember(e.members, key, Str(s), v);
      }
      if Lookup(e.members, key).Some? && Lookup(e.members, key).value.Str? {
        assert HasText(e, key, Lookup(e.members, key).value.s);
      }
    }
  }

  lemma IdentityIsText(e: Json)
    requires Valid(e)
    ensures EntityIdentity(e) == IdentityText(e)
  {
    hide Ascii, StringField, Field, TextUnder, HasObject, Valid;
    FieldIsText(e, Ascii("entity_type"));
    FieldIsText(e, Ascii("entity_id"));
    FieldIsText(e, Ascii("client_id"));
    PayloadFound(e);
    var payload := Field(e, PAYLOAD);
    if payload.Some? && payload.value.Obj? {
      FieldValid(e, PAYLOAD);
      FieldIsText(payload.value, Ascii("task_id"));
      FieldIsText(payload.value, Ascii("schedule_revision"));
      assert IsSchedule(e, payload.value)
        <==> TextUnder(e, Ascii("entity_type")) == Ascii("schedule_version")
             && TextUnder(payload.value, Ascii("task_id")) != []
             && TextUnder(payload.value, Ascii("schedule_revision")) != [];
    }
  }

  lemma PayloadFound(e: Json)
    requires Valid(e)
    ensures forall o :: HasObject(e, Ascii("payload"), o) <==> o.Obj? && Field(e, PAYLOAD) == Some(o)
  {
    if e.Obj? {
      LookupFound(e.members, PAYLOAD);
      forall o | HasObject(e, Ascii("payload"), o)
        ensures Field(e, PAYLOAD) == Some(o)
      {
        OneMember(e.members, PAYLOAD, o, Lookup(e.members, PAYLOAD).value);
      }
    }
  }

  // ---------------------------------------------------------------- the three sets

  /** What the elements of a list under a key are sorted by; no other list is sorted. */
  ghost function SortTexts(key: text, e: Json): seq<text> {
    if key == Ascii("entities") then [TextUnder(e, Ascii("entity_type")), IdentityText(e)]
    else if key == Ascii("identity_mappings") then
      [TextUnder(e, Ascii("entity_type")), TextUnder(e, Ascii("client_id")), TextUnder(e, Ascii("entity_id"))]
    else [JsString(e)]
  }

  predicate IsSetKey(key: text) {
    key == Ascii("entities") || key == Ascii("identity_mappings") || key == Ascii("field_paths")
  }

  /** At the first text that differs, the first list has the smaller one by code point. */
  ghost predicate Precedes(a: seq<text>, b: seq<text>) {
    |a| == |b| && exists n :: 0 <= n < |a| && a[..n] == b[..n] && LessByCodePoint(a[n], b[n])
  }

  ghost predicate Ascending(key: text, items: seq<Json>) {
    forall i, j :: 0 <= i < j < |items| ==> !Precedes(SortTexts(key, items[j]), SortTexts(key, items[i]))
  }

  lemma {:induction false} LessIsPrecedes(a: seq<text>, b: seq<text>)
    requires |a| == |b|
    ensures LessKey(a, b) <==> Precedes(a, b)
  {
    if |a| > 0 {
      CodePointOrder(a[0], b[0], a[0]);
      LessIsPrecedes(a[1..], b[1..]);
      if a[0] == b[0] && Precedes(a[1..], b[1..]) {
        var n :| 0 <= n < |a| - 1 && a[1..][..n] == b[1..][..n] && LessByCodePoint(a[1..][n], b[1..][n]);
        assert a[..n + 1] == [a[0]] + a[1..][..n] && b[..n + 1] == [b[0]] + b[1..][..n];
      }
      if LessByCodePoint(a[0], b[0]) {
        assert a[..0] == b[..0];
      }
      if Precedes(a, b) {
        var n :| 0 <= n < |a| && a[..n] == b[..n] && LessByCodePoint(a[n], b[n]);
        if n > 0 {
          assert a[0] == a[..n][0] && b[0] == b[..n][0];
          assert a[1..][..n - 1] == a[..n][1..] && b[1..][..n - 1] == b[..n][1..];
        }
      }
    }
  }

  lemma KeyIsTexts(key: text, e: Json)
    requires Valid(e)
    ensures KindOf(key).Some? <==> IsSetKey(key)
    ensures IsSetKey(key) ==> KeyOf(KindOf(key).value, e) == SortTexts(key, e)
  {
    hide StringField, EntityIdentity, TextUnder, IdentityText, JsString, Valid;
    FieldIsText(e, Ascii("entity_type"));
    FieldIsText(e, Ascii("client_id"));
    FieldIsText(e, Ascii("entity_id"));
    IdentityIsText(e);
    DifferentNames();
  }

  lemma DifferentNames()
    ensures Ascii("entities") != Ascii("identity_mappings")
    ensures Ascii("entities") != Ascii("field_paths") && Ascii("identity_mappings") != Ascii("field_paths")
  {
    assert |Ascii("entities")| == 8 && |Ascii("identity_mappings")| == 17 && |Ascii("field_paths")| == 11;
  }

  // ---------------------------------------------------------------- the normalised value

  /** `n` is `v` with the three sets in order, at every depth: a set holds the descriptions of the same
      elements, ascending; every other list keeps its places, and nothing else changes. */
  ghost predicate Describes(n: Json, v: Json)
    decreases v, 0
  {
    match (v, n)
    case (Arr(xs), Arr(ys)) => |xs| == |ys| && forall i :: 0 <= i < |xs| ==> Describes(ys[i], xs[i])
    case (Obj(ms), Obj(ns)) =>
      |ms| == |ns| && forall i :: 0 <= i < |ms| ==>
        ns[i].key == ms[i].key && DescribesUnder(ms[i].key, ns[i].value, ms[i].value)
    case _ => n == v
  }

  ghost predicate DescribesUnder(key: text, n: Json, v: Json)
    decreases v, 1
  {
    if IsSetKey(key) && v.Arr? && n.Arr? then
      Ascending(key, n.items) && exists zs: seq<Json> :: DescribesEach(zs, v) && multiset(zs) == multiset(n.items)
    else Describes(n, v)
  }

  ghost predicate DescribesEach(zs: seq<Json>, v: Json)
    requires v.Arr?
    decreases v, 0
  {
    |zs| == |v.items| && forall i :: 0 <= i < |zs| ==> Describes(zs[i], v.items[i])
  }

  /** Normalising does exactly this. */
  lemma {:induction false} NormalizeDescribes(v: Json)
    requires Valid(v)
    ensures Describes(Normalize(v), v)
    decreases v, 0
  {
    match v
    case Arr(items) =>
      forall i | 0 <= i < |items|
        ensures Describes(Normalize(v).items[i], items[i])
      {
        NormalizeDescribes(items[i]);
      }
    case Obj(members) =>
      forall i | 0 <= i < |members|
        ensures DescribesUnder(members[i].key, NormalizeMembers(members)[i].value, members[i].value)
      {
        NormalizeDescribesUnder(members[i].key, members[i].value);
      }
    case _ =>
  }

  lemma {:induction false} NormalizeDescribesUnder(key: text, v: Json)
    requires Valid(v)
    ensures DescribesUnder(key, SortSet(key, Normalize(v)), v)
    decreases v, 1
  {
    hide Normalize, Describes, SetLess, Ascending, IsSetKey, KindOf;
    NormalizeDescribes(v);
    KeyIsTexts(key, v);
    NormalizedShape(v);
    if KindOf(key).Some? && v.Arr? {
      var zs := Normalize(v).items;
      NormalizeValid(v);
      SortSetSorts(key, zs);
      forall i | 0 <= i < |zs|
        ensures Describes(zs[i], v.items[i])
      {
        NormalizeDescribes(v.items[i]);
      }
      SortSetAscends(key, zs);
      assert DescribesEach(zs, v) && multiset(zs) == multiset(SortSet(key, Normalize(v)).items);
    }
  }

  lemma NormalizedShape(v: Json)
    ensures Normalize(v).Arr? == v.Arr?
    ensures v.Arr? ==> |Normalize(v).items| == |v.items|
    ensures v.Arr? ==> forall i :: 0 <= i < |v.items| ==> Normalize(v).items[i] == Normalize(v.items[i])
  {
  }

  lemma SortSetAscends(key: text, zs: seq<Json>)
    requires KindOf(key).Some? && Valid(Arr(zs))
    ensures SortSet(key, Arr(zs)).Arr? && Ascending(key, SortSet(key, Arr(zs)).items)
  {
    hide SortTexts, KeyOf, Sort, LessKey, Precedes;
    var r := SortSet(key, Arr(zs)).items;
    SortSetSorts(key, zs);
    SortSetValid(key, Arr(zs));
    forall i, j | 0 <= i < j < |r|
      ensures !Precedes(SortTexts(key, r[j]), SortTexts(key, r[i]))
    {
      KeyIsTexts(key, r[i]);
      KeyIsTexts(key, r[j]);
      LessIsPrecedes(SortTexts(key, r[j]), SortTexts(key, r[i]));
    }
  }

  // ---------------------------------------------------------------- the text of an envelope

  /** The digest is about the members of the envelope other than these two. */
  lemma {:induction false} ContentsAre(members: seq<Member>)
    ensures forall m :: m in Without(members) <==>
      m in members && m.key != Ascii("request_digest") && m.key != Ascii("forwarded_by_device_client_id")
  {
    hide Ascii;
    if |members| > 0 {
      ContentsAre(members[1..]);
      assert members == [members[0]] + members[1..];
    }
  }

  /** What `requestDigest` prints. */
  lemma RequestTextDescribed(v: Json)
    requires v.Obj? && Valid(v)
    ensures var n := Normalize(Contents(v)); var t := CanonicalizeValue(n);
      RequestText(v) == Some(t) && RequestDigest(v) == Some(Sha256Text(t)) && Describes(n, Contents(v))
  {
    hide Normalize, Describes, CanonicalizeValue, Valid, Without, Sha256Text;
    ContentsValid(v);
    NormalizeDescribes(Contents(v));
  }

  /** No two elements agree in all they are sorted by. */
  ghost predicate Distinct(key: text, items: seq<Json>) {
    forall i, j :: 0 <= i < j < |items| ==> SortTexts(key, items[i]) != SortTexts(key, items[j])
  }

  lemma ListingNormal(key: text, xs: seq<Json>, ys: seq<Json>)
    requires IsSetKey(key) && Valid(Arr(xs)) && Distinct(key, xs) && multiset(ys) == multiset(xs)
    ensures Valid(Arr(ys)) && NormalUnder(key, Arr(ys)) == NormalUnder(key, Arr(xs))
  {
    hide Normal, NormalUnder, SortTexts, KeyOf, IsSetKey;
    KeyIsTexts(key, Null);
    forall i | 0 <= i < |ys|
      ensures Valid(ys[i])
    {
      assert ys[i] in multiset(xs);
    }
    forall i, j | 0 <= i < |xs| && 0 <= j < |xs|
        && KeyOf(KindOf(key).value, xs[i]) == KeyOf(KindOf(key).value, xs[j])
      ensures Normal(xs[i]) == Normal(xs[j])
    {
      KeyIsTexts(key, xs[i]);
      KeyIsTexts(key, xs[j]);
    }
    MapMultiset(NormalFn(), xs, ys);
    NormalSetPermuted(key, xs, ys);
  }

  predicate PrintedAlike(ms: seq<Member>, ns: seq<Member>) {
    |ms| == |ns| && forall k :: 0 <= k < |ms| ==>
      ns[k].key == ms[k].key && NormalUnder(ms[k].key, ns[k].value) == NormalUnder(ms[k].key, ms[k].value)
  }

  lemma {:induction false} WithoutAlike(ms: seq<Member>, ns: seq<Member>)
    requires PrintedAlike(ms, ns)
    ensures PrintedAlike(Without(ms), Without(ns))
  {
    hide NormalUnder;
    if |ms| > 0 {
      WithoutAlike(ms[1..], ns[1..]);
    }
  }

  /** A set of the envelope may be listed in any order. */
  lemma SetInAnyOrder(members: seq<Member>, i: nat, ys: seq<Json>)
    requires Valid(Obj(members)) && i < |members| && IsSetKey(members[i].key) && members[i].value.Arr?
    requires Distinct(members[i].key, members[i].value.items) && multiset(ys) == multiset(members[i].value.items)
    ensures var listed := Obj(members[i := Member(members[i].key, Arr(ys))]);
      RequestText(listed) == RequestText(Obj(members)) && RequestDigest(listed) == RequestDigest(Obj(members))
  {
    hide RequestText, Normal, NormalUnder, Distinct, IsSetKey, Without;
    var key := members[i].key;
    var others := members[i := Member(key, Arr(ys))];
    ListingNormal(key, members[i].value.items, ys);
    assert Valid(Obj(others));
    WithoutAlike(members, others);
    ContentsValid(Obj(members));
    forall k | 0 <= k < |Without(members)|
      ensures NormalMember(Without(members)[k], Without(others))
    {
      assert Without(others)[k].key == Without(members)[k].key;
    }
    NormalMembers(Without(members), Without(others));
    RequestTextIsNormal(Obj(members), Obj(others));
  }

  /** Any other list of the envelope shows its order: texts that are equal list the same in the same places. */
  lemma OtherListShowsItsOrder(members: seq<Member>, i: nat, ys: seq<Json>)
    requires Valid(Obj(members)) && Valid(Arr(ys)) && i < |members| && members[i].value.Arr?
    requires !IsSetKey(members[i].key)
    requires members[i].key != Ascii("request_digest")
    requires members[i].key != Ascii("forwarded_by_device_client_id")
    requires RequestText(Obj(members[i := Member(members[i].key, Arr(ys))])) == RequestText(Obj(members))
    ensures var xs := members[i].value.items;
      |ys| == |xs| && forall k :: 0 <= k < |xs| ==> Normal(ys[k]) == Normal(xs[k])
  {
    hide RequestText, Normal, NormalUnder, IsSetKey, Without, Ascii;
    var key, xs := members[i].key, members[i].value.items;
    var others := members[i := Member(key, Arr(ys))];
    assert Valid(Obj(others));
    RequestTextIsNormal(Obj(members), Obj(others));
    KeyIsTexts(key, Null);
    ContentsAre(members);
    ContentsAre(others);
    assert others[i] in others && members[i] in members;
    var a :| 0 <= a < |Without(members)| && Without(members)[a] == members[i];
    var b := NormalMatch(Without(members), Without(others), a);
    assert Without(others)[b] in others && Without(others)[b].key == key;
    OneMember(others, key, Without(others)[b].value, Arr(ys));
    PlainMember(key, Arr(xs));
    PlainMember(key, Arr(ys));
    NormalItems(xs, ys);
  }

  // ---------------------------------------------------------------- string forms and digests

  /** `String` of a path: scalars as they are written, objects alike, and the elements of a list with commas
      between them, null being nothing there. */
  lemma StringForms(v: Json)
    ensures v.Null? ==> JsString(v) == Ascii("null")
    ensures v.Bool? ==> JsString(v) == if v.b then Ascii("true") else Ascii("false")
    ensures v.Num? ==> IsNumberText(v.n, JsString(v))
    ensures v.Str? ==> JsString(v) == v.s
    ensures v.Obj? ==> JsString(v) == Ascii("[object Object]")
    ensures v.Arr? ==> JsString(v) == Joined(ElementForms(v.items))
  {
    hide Join, Joined;
    match v
    case Num(n) => NumberIs(n);
    case Arr(items) =>
      assert ElementForms(items)
          == seq(|items|, i requires 0 <= i < |items| => if items[i].Null? then [] else JsString(items[i]));
      JoinedIs(ElementForms(items));
    case _ =>
  }

  function ElementForms(items: seq<Json>): seq<text> {
    seq(|items|, i requires 0 <= i < |items| => if items[i].Null? then Ascii("") else JsString(items[i]))
  }

  /** A digest is printed as two digits a byte, the high half first. */
  lemma {:induction false} HexDigits(bytes: seq<byte>, i: nat)
    requires i < |bytes|
    ensures |HexText(bytes)| == 2 * |bytes|
    ensures HexText(bytes)[2 * i] == Ascii("0123456789abcdef")[bytes[i] / 16]
    ensures HexText(bytes)[2 * i + 1] == Ascii("0123456789abcdef")[bytes[i] % 16]
  {
    DigitChar(bytes[0] / 16);
    DigitChar(bytes[0] % 16);
    if |bytes| > 1 {
      HexDigits(bytes[1..], if i > 0 then i - 1 else 0);
    }
  }

  /** A digest is the prefix and SHA-256 of the UTF-8 form of the text, in 64 digits. */
  lemma Sha256TextIs(t: text, hash: seq<byte>)
    requires hash == Sha256.Digest(Utf8.Utf8(t))
    ensures |hash| == 32 && Sha256Text(t) == Ascii("sha256:") + HexText(hash) && |HexText(hash)| == 64
  {
    hide Ascii, HexText, Sha256.Digest, Utf8.Utf8;
    HashLength(Utf8.Utf8(t));
    HexDigits(hash, 0);
  }

  lemma HashLength(message: seq<byte>)
    ensures |Sha256.Digest(message)| == 32
  {
    hide Sha256.HashBlocks;
    Sha256.PaddedFacts(message);
  }

  // ---------------------------------------------------------------- a page

  lemma FirstDecides(a: text, b: text)
    requires |a| > 0 && |b| > 0 && a[0] < b[0]
    ensures KeyBefore(a, b)
  {
    assert a[..0] == b[..0];
  }

  /** Four entries with ascending first letters. */
  lemma FourInOrder(a: Entry, e: Entry, p: Entry, s: Entry)
    requires |a.key| > 0 && |e.key| > 0 && |p.key| > 0 && |s.key| > 0
    requires a.key[0] < e.key[0] < p.key[0] < s.key[0]
    ensures Sort([s, p, a, e], EntryLess()) == [a, e, p, s]
  {
    hide Sort, KeyBefore;
    var xs, ys := [s, p, a, e], [a, e, p, s];
    forall i, j | 0 <= i < j < 4
      ensures KeyBefore(ys[i].key, ys[j].key)
    {
      FirstDecides(ys[i].key, ys[j].key);
    }
    SortedAscend(xs);
    assert multiset(xs) == multiset(ys);
    OneOrder(Sort(xs, EntryLess()), ys);
  }

  lemma PageLetters()
    ensures |Ascii("as_of_sequence")| > 0 && Ascii("as_of_sequence")[0] == 97
    ensures |ENTITIES| > 0 && ENTITIES[0] == 101
    ensures |Ascii("page_index")| > 0 && Ascii("page_index")[0] == 112
    ensures |Ascii("snapshot_id")| > 0 && Ascii("snapshot_id")[0] == 115
  {
  }

  /** The text `pageChecksum` hashes: four members in the order of their names, the entities sorted. */
  lemma PageTextIs(snapshotId: text, pageIndex: int, asOfSequence: text, entities: seq<Json>)
    ensures CanonicalizeValue(Page(snapshotId, pageIndex, asOfSequence, entities))
      == Ascii("{") + Join([
           WriteString(Ascii("as_of_sequence")) + Ascii(":") + WriteString(asOfSequence),
           WriteString(Ascii("entities")) + Ascii(":") + CanonicalizeValue(Arr(Sort(entities, SetLess(Entities)))),
           WriteString(Ascii("page_index")) + Ascii(":") + FormatNumber(pageIndex),
           WriteString(Ascii("snapshot_id")) + Ascii(":") + WriteString(snapshotId)]) + Ascii("}")
  {
    hide Sort, WriteString, Join, FormatNumber;
    PageLetters();
    var ms := Page(snapshotId, pageIndex, asOfSequence, entities).members;
    var es := seq(|ms|, i requires 0 <= i < |ms| =>
      Entry(ms[i].key, WriteString(ms[i].key) + COLON + CanonicalizeValue(ms[i].value)));
    assert es == [es[0], es[1], es[2], es[3]];
    FourInOrder(es[2], es[3], es[1], es[0]);
    var r := [es[2], es[3], es[1], es[0]];
    assert Map(PrintedOf(), r) == [es[2].printed, es[3].printed, es[1].printed, es[0].printed];
    assert Ascii(":") == COLON && Ascii("{") == [123] && Ascii("}") == [125];
  }
}
