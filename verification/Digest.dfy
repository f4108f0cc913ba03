/** The mobile-v2 digests of miniprogram/lib/digest.ts: three arrays are sets, and the digest must
    not depend on the order in which their elements are listed. */
module Digest {
  import opened Text
  import opened Sorting
  import opened Jcs
  import opened Wrappers
  import opened JsonParse
  import opened Bits
  import Utf8
  import Sha256

  const ENTITIES: text := Ascii("entities")
  const IDENTITY_MAPPINGS: text := Ascii("identity_mappings")
  const FIELD_PATHS: text := Ascii("field_paths")
  const ENTITY_TYPE: text := Ascii("entity_type")
  const ENTITY_ID: text := Ascii("entity_id")
  const CLIENT_ID: text := Ascii("client_id")
  const PAYLOAD: text := Ascii("payload")
  const TASK_ID: text := Ascii("task_id")
  const SCHEDULE_REVISION: text := Ascii("schedule_revision")
  const SCHEDULE_VERSION: text := Ascii("schedule_version")
  const REQUEST_DIGEST: text := Ascii("request_digest")
  const FORWARDED_BY: text := Ascii("forwarded_by_device_client_id")

  // ---------------------------------------------------------------- fields and identities

  function Lookup(members: seq<Member>, key: text): Option<Json> {
    if |members| == 0 then None
    else if members[0].key == key then Some(members[0].value)
    else Lookup(members[1..], key)
  }

  /** `(asRecord(value) ?? {})[key]` */
  function Field(v: Json, key: text): Option<Json> {
    if v.Obj? then Lookup(v.members, key) else None
  }

  /** `asString` of a field: anything but a string counts as the empty string. */
  function StringField(v: Json, key: text): text {
    match Field(v, key)
    case Some(Str(s)) => s
    case _ => []
  }

  /** `canonicalEntityIdentity` */
  function EntityIdentity(entity: Json): text {
    var payload := Field(entity, PAYLOAD);
    if StringField(entity, ENTITY_TYPE) == SCHEDULE_VERSION && payload.Some? && payload.value.Obj?
       && StringField(payload.value, TASK_ID) != [] && StringField(payload.value, SCHEDULE_REVISION) != [] then
      Ascii("k:") + StringField(payload.value, TASK_ID) + Ascii("#") + StringField(payload.value, SCHEDULE_REVISION)
    else if StringField(entity, ENTITY_ID) != [] then Ascii("s:") + StringField(entity, ENTITY_ID)
    else Ascii("c:") + StringField(entity, CLIENT_ID)
  }

  /** `String(value)` */
  function JsString(v: Json): text {
    match v
    case Null => NULL_TEXT
    case Bool(b) => Literal(b)
    case Num(n) => FormatNumber(n)
    case Str(s) => s
    case Arr(items) =>
      Join(seq(|items|, i requires 0 <= i < |items| => if items[i].Null? then [] else JsString(items[i])))
    case Obj(_) => Ascii("[object Object]")
  }

  // ---------------------------------------------------------------- the comparators

  /** The texts a comparator looks at, in order. */
  function EntityKey(): Json -> seq<text> {
    (v: Json) => [StringField(v, ENTITY_TYPE), EntityIdentity(v)]
  }

  function MappingKey(): Json -> seq<text> {
    (v: Json) => [StringField(v, ENTITY_TYPE), StringField(v, CLIENT_ID), StringField(v, ENTITY_ID)]
  }

  function PathKey(): Json -> seq<text> {
    (v: Json) => [JsString(v)]
  }

  /** The first text that differs decides, by code point. */
  predicate LessKey(a: seq<text>, b: seq<text>)
    requires |a| == |b|
  {
    if |a| == 0 then false
    else if a[0] != b[0] then LessByCodePoint(a[0], b[0])
    else LessKey(a[1..], b[1..])
  }

  datatype SetKind = Entities | Mappings | Paths

  function KeyOf(kind: SetKind, v: Json): (k: seq<text>)
    ensures |k| == match kind case Entities => 2 case Mappings => 3 case Paths => 1
  {
    match kind
    case Entities => EntityKey()(v)
    case Mappings => MappingKey()(v)
    case Paths => PathKey()(v)
  }

  /** The comparator of a set returns a negative number. */
  function SetLess(kind: SetKind): (Json, Json) -> bool {
    (a: Json, b: Json) => LessKey(KeyOf(kind, a), KeyOf(kind, b))
  }

  lemma {:induction false} LessKeyOrder(a: seq<text>, b: seq<text>, c: seq<text>)
    requires |a| == |b| == |c|
    ensures a == b <==> !LessKey(a, b) && !LessKey(b, a)
    ensures !(LessKey(a, b) && LessKey(b, a))
    ensures LessKey(a, b) && LessKey(b, c) ==> LessKey(a, c)
  {
    if |a| > 0 {
      CodePointOrder(a[0], b[0], c[0]);
      CodePointOrder(b[0], c[0], a[0]);
      CodePointOrder(a[0], c[0], b[0]);
      LessKeyOrder(a[1..], b[1..], c[1..]);
      assert a == [a[0]] + a[1..] && b == [b[0]] + b[1..];
    }
  }

  /** Each comparator is a consistent order, and two elements tie exactly when their keys are equal. */
  lemma SetLessIsOrder(kind: SetKind)
    ensures StrictWeakOrder(SetLess(kind))
    ensures forall a, b :: !SetLess(kind)(a, b) && !SetLess(kind)(b, a) <==> KeyOf(kind, a) == KeyOf(kind, b)
  {
    forall x, y: Json
      ensures SetLess(kind)(x, y) ==> !SetLess(kind)(y, x)
      ensures !SetLess(kind)(x, y) && !SetLess(kind)(y, x) <==> KeyOf(kind, x) == KeyOf(kind, y)
    {
      LessKeyOrder(KeyOf(kind, x), KeyOf(kind, y), KeyOf(kind, y));
    }
    forall x, y, z: Json
      ensures SetLess(kind)(x, y) && SetLess(kind)(y, z) ==> SetLess(kind)(x, z)
      ensures !SetLess(kind)(x, y) && !SetLess(kind)(y, z) ==> !SetLess(kind)(x, z)
    {
      var a, b, c := KeyOf(kind, x), KeyOf(kind, y), KeyOf(kind, z);
      LessKeyOrder(a, b, c);
      LessKeyOrder(c, b, a);
      LessKeyOrder(b, c, a);
      LessKeyOrder(c, a, b);
    }
  }

  /** The comparator of `sortEntityValues`. */
  method CompareEntities(left: Json, right: Json) returns (c: int)
    ensures c < 0 <==> SetLess(Entities)(left, right)
    ensures c > 0 <==> SetLess(Entities)(right, left)
  {
    var leftType, rightType := StringField(left, ENTITY_TYPE), StringField(right, ENTITY_TYPE);
    LessKeyOrder(EntityKey()(left), EntityKey()(right), EntityKey()(left));
    if leftType != rightType {
      var less := LessCodePoint(leftType, rightType);
      return if less then -1 else 1;
    }
    var leftIdentity, rightIdentity := EntityIdentity(left), EntityIdentity(right);
    assert EntityKey()(left)[1..] == [leftIdentity] && EntityKey()(right)[1..] == [rightIdentity];
    CodePointOrder(leftIdentity, rightIdentity, leftIdentity);
    assert LessKey([leftIdentity], [rightIdentity])
        == (leftIdentity != rightIdentity && LessByCodePoint(leftIdentity, rightIdentity));
    var less := LessCodePoint(leftIdentity, rightIdentity);
    return if less then -1 else if leftIdentity == rightIdentity then 0 else 1;
  }

  /** The comparator of `sortIdentityMappings`. */
  method CompareMappings(left: Json, right: Json) returns (c: int)
    ensures c < 0 <==> SetLess(Mappings)(left, right)
    ensures c > 0 <==> SetLess(Mappings)(right, left)
  {
    var leftKey, rightKey := MappingKey()(left), MappingKey()(right);
    LessKeyOrder(leftKey, rightKey, leftKey);
    for index := 0 to 3
      invariant LessKey(leftKey, rightKey) == LessKey(leftKey[index..], rightKey[index..])
      invariant forall i :: 0 <= i < index ==> leftKey[i] == rightKey[i]
    {
      if leftKey[index] != rightKey[index] {
        var less := LessCodePoint(leftKey[index], rightKey[index]);
        return if less then -1 else 1;
      }
      assert leftKey[index..][1..] == leftKey[index + 1..] && rightKey[index..][1..] == rightKey[index + 1..];
    }
    assert leftKey == rightKey;
    return 0;
  }

  /** The comparator of `field_paths`. It answers 1 for two paths with one string form, whichever comes
      first, and never 0. */
  method ComparePaths(left: Json, right: Json) returns (c: int)
    ensures c != 0
    ensures c < 0 <==> SetLess(Paths)(left, right)
    ensures c > 0 <==> SetLess(Paths)(right, left) || KeyOf(Paths, left) == KeyOf(Paths, right)
  {
    var leftText, rightText := JsString(left), JsString(right);
    CodePointOrder(leftText, rightText, leftText);
    assert LessKey([leftText], [rightText]) == LessByCodePoint(leftText, rightText);
    assert LessKey([rightText], [leftText]) == LessByCodePoint(rightText, leftText);
    var less := LessCodePoint(leftText, rightText);
    return if less then -1 else 1;
  }

  /** `sortEntityValues`, `sortIdentityMappings` and the sort of `field_paths`, in place. */
  method SortEntityValues(values: array<Json>)
    modifies values
    ensures values[..] == Sort(old(values[..]), SetLess(Entities))
  {
    SortInPlace(values, SetLess(Entities));
  }

  method SortIdentityMappings(values: array<Json>)
    modifies values
    ensures values[..] == Sort(old(values[..]), SetLess(Mappings))
  {
    SortInPlace(values, SetLess(Mappings));
  }

  /** Equal string forms keep their places here, as they do in a host that only asks whether the answer
      of the comparator is negative; the language leaves their order to the host. Where string forms that
      are equal belong to equal paths, every host gets this result (`AnyHostSorts`). */
  method SortFieldPaths(values: array<Json>)
    modifies values
    ensures values[..] == Sort(old(values[..]), SetLess(Paths))
  {
    SortInPlace(values, SetLess(Paths));
  }

  /** Whatever algorithm a host sorts a set with: if it returns a sorted permutation, and elements that
      tie are equal, it returns this one. */
  lemma AnyHostSorts(kind: SetKind, xs: seq<Json>, r: seq<Json>)
    requires multiset(r) == multiset(xs) && Sorted(r, SetLess(kind))
    requires forall x, y :: x in xs && y in xs && KeyOf(kind, x) == KeyOf(kind, y) ==> x == y
    ensures r == Sort(xs, SetLess(kind))
  {
    hide SetLess, KeyOf, Sort, Sorted, StrictWeakOrder;
    var less := SetLess(kind);
    SetLessIsOrder(kind);
    SortSorted(xs, less);
    SortPermutes(xs, less);
    forall i, j | 0 <= i < |r| && 0 <= j < |r|
      ensures r[i] == r[j] || less(r[i], r[j]) || less(r[j], r[i])
    {
      assert r[i] in multiset(xs) && r[j] in multiset(xs);
    }
    SortUnique(r, Sort(xs, less), less);
  }

  // ---------------------------------------------------------------- normalisation

  /** Which set a member key announces. */
  function KindOf(key: text): Option<SetKind> {
    if key == ENTITIES then Some(Entities)
    else if key == IDENTITY_MAPPINGS then Some(Mappings)
    else if key == FIELD_PATHS then Some(Paths)
    else None
  }

  /** The sort behind a member key. */
  function SortSet(key: text, v: Json): Json {
    if v.Arr? && KindOf(key).Some? then Arr(Sort(v.items, SetLess(KindOf(key).value))) else v
  }

  /** `normalizeMobileV2SemanticSets`: children first, then the set itself. */
  function Normalize(v: Json): Json {
    match v
    case Arr(items) => Arr(seq(|items|, i requires 0 <= i < |items| => Normalize(items[i])))
    case Obj(members) => Obj(NormalizeMembers(members))
    case _ => v
  }

  function NormalizeMembers(members: seq<Member>): (r: seq<Member>)
    ensures |r| == |members|
    ensures forall i :: 0 <= i < |members| ==>
      r[i] == Member(members[i].key, SortSet(members[i].key, Normalize(members[i].value)))
  {
    seq(|members|, i requires 0 <= i < |members| =>
      Member(members[i].key, SortSet(members[i].key, Normalize(members[i].value))))
  }

  /** The two members that do not enter the digest. */
  function Without(members: seq<Member>): seq<Member> {
    if |members| == 0 then []
    else if members[0].key == REQUEST_DIGEST || members[0].key == FORWARDED_BY then Without(members[1..])
    else [members[0]] + Without(members[1..])
  }

  /** The text `requestDigest` hashes; an envelope that is not an object is refused. */
  function RequestText(envelope: Json): Option<text> {
    if envelope.Obj? then Some(CanonicalizeValue(Normalize(Obj(Without(envelope.members))))) else None
  }

  function HexText(bytes: seq<byte>): text {
    if |bytes| == 0 then [] else [HexDigit(bytes[0] / 16), HexDigit(bytes[0] % 16)] + HexText(bytes[1..])
  }

  /** `'sha256:' + sha256Hex(text)` */
  function Sha256Text(t: text): text {
    Ascii("sha256:") + HexText(Sha256.Digest(Utf8.Utf8(t)))
  }

  /** `requestDigest` */
  function RequestDigest(envelope: Json): Option<text> {
    match RequestText(envelope)
    case None => None
    case Some(t) => Some(Sha256Text(t))
  }

  /** The object `pageChecksum` hashes. */
  function Page(snapshotId: text, pageIndex: int, asOfSequence: text, entities: seq<Json>): Json {
    Obj([Member(Ascii("snapshot_id"), Str(snapshotId)), Member(Ascii("page_index"), Num(pageIndex)),
         Member(Ascii("as_of_sequence"), Str(asOfSequence)), Member(ENTITIES, Arr(Sort(entities, SetLess(Entities))))])
  }

  /** `pageChecksum` */
  function PageChecksum(snapshotId: text, pageIndex: int, asOfSequence: text, entities: seq<Json>): text {
    Sha256Text(CanonicalizeValue(Page(snapshotId, pageIndex, asOfSequence, entities)))
  }

  // ---------------------------------------------------------------- keys survive normalisation

  function SortKeysFn(): Json -> Json {
    (v: Json) => SortKeys(v)
  }

  lemma LookupIn(members: seq<Member>, i: nat)
    requires i < |members| && DistinctKeys(members)
    ensures Lookup(members, members[i].key) == Some(members[i].value)
  {
    if i > 0 {
      assert members[0].key != members[i].key;
      LookupIn(members[1..], i - 1);
    }
  }

  lemma {:induction false} LookupFound(members: seq<Member>, key: text)
    ensures match Lookup(members, key)
            case None => forall i :: 0 <= i < |members| ==> members[i].key != key
            case Some(v) => Member(key, v) in members
  {
    if |members| > 0 && members[0].key != key {
      LookupFound(members[1..], key);
    }
  }

  /** Sorting the members of an object sorts what a lookup finds. */
  lemma LookupSorted(members: seq<Member>, key: text)
    requires DistinctKeys(members)
    ensures DistinctKeys(Sort(SortedValues(members), KeyLess()))
    ensures Lookup(Sort(SortedValues(members), KeyLess()), key)
         == match Lookup(members, key) case None => None case Some(v) => Some(SortKeys(v))
  {
    hide SortKeys, Lookup, Sort;
    var xs := SortedValues(members);
    var r := Sort(xs, KeyLess());
    SortedMembersDistinct(xs);
    LookupFound(members, key);
    LookupFound(r, key);
    match Lookup(members, key) {
      case Some(v) =>
        var i :| 0 <= i < |members| && members[i] == Member(key, v);
        assert xs[i] == Member(key, SortKeys(v));
        SortMember(xs, KeyLess(), xs[i]);
        var j :| 0 <= j < |r| && r[j] == xs[i];
        LookupIn(r, j);
      case None =>
        forall j | 0 <= j < |r|
          ensures r[j].key != key
        {
          SortMember(xs, KeyLess(), r[j]);
          var i :| 0 <= i < |xs| && xs[i] == r[j];
        }
    }
  }

  lemma SortedMembersDistinct(xs: seq<Member>)
    requires DistinctKeys(xs)
    ensures DistinctKeys(Sort(xs, KeyLess()))
  {
    KeyLessIsOrder();
    DistinctKeysAreStrict(xs);
    SortPermutes(xs, KeyLess());
    StrictPermuted(xs, Sort(xs, KeyLess()), KeyLess());
    var r := Sort(xs, KeyLess());
    forall i, j | 0 <= i < j < |r|
      ensures r[i].key != r[j].key
    {
      Irreflexive(r[i].key);
    }
  }

  /** A field of an object in normal form is the normal form of the field. */
  lemma FieldSorted(v: Json, key: text)
    requires Valid(v)
    ensures Field(SortKeys(v), key)
         == match Field(v, key) case None => None case Some(x) => Some(SortKeys(x))
  {
    if v.Obj? {
      LookupSorted(v.members, key);
    }
  }

  lemma {:induction false} LookupNormalized(members: seq<Member>, key: text)
    ensures Lookup(NormalizeMembers(members), key)
         == match Lookup(members, key) case None => None case Some(x) => Some(SortSet(key, Normalize(x)))
  {
    hide SortSet, Normalize;
    if |members| > 0 && members[0].key != key {
      assert NormalizeMembers(members)[1..] == NormalizeMembers(members[1..]);
      LookupNormalized(members[1..], key);
    }
  }

  lemma FieldNormalized(v: Json, key: text)
    ensures Field(Normalize(v), key)
         == match Field(v, key) case None => None case Some(x) => Some(SortSet(key, Normalize(x)))
  {
    if v.Obj? {
      LookupNormalized(v.members, key);
    }
  }

  /** Neither pass changes a string or the kind of a value. */
  lemma PassesKeepStrings(v: Json, key: text)
    ensures SortKeys(v).Str? == v.Str? && (v.Str? ==> SortKeys(v) == v)
    ensures SortSet(key, Normalize(v)).Str? == v.Str? && (v.Str? ==> SortSet(key, Normalize(v)) == v)
    ensures SortKeys(v).Obj? == v.Obj? && SortSet(key, Normalize(v)).Obj? == v.Obj?
    ensures v.Obj? ==> SortSet(key, Normalize(v)) == Normalize(v)
  {
  }

  lemma StringFieldKept(v: Json, key: text)
    ensures Valid(v) ==> StringField(SortKeys(v), key) == StringField(v, key)
    ensures StringField(Normalize(v), key) == StringField(v, key)
  {
    hide SortKeys, Normalize, SortSet;
    if Valid(v) {
      FieldSorted(v, key);
    }
    FieldNormalized(v, key);
    match Field(v, key)
    case Some(x) => PassesKeepStrings(x, key);
    case None =>
  }

  lemma FieldValid(v: Json, key: text)
    requires Valid(v)
    ensures Field(v, key).Some? ==> Valid(Field(v, key).value)
  {
    if v.Obj? {
      LookupFound(v.members, key);
    }
  }

  lemma IdentityKept(v: Json)
    ensures Valid(v) ==> EntityIdentity(SortKeys(v)) == EntityIdentity(v)
    ensures EntityIdentity(Normalize(v)) == EntityIdentity(v)
  {
    hide SortKeys, Normalize, SortSet, Field, StringField, Valid;
    StringFieldKept(v, ENTITY_TYPE);
    StringFieldKept(v, ENTITY_ID);
    StringFieldKept(v, CLIENT_ID);
    FieldNormalized(v, PAYLOAD);
    if Valid(v) {
      FieldSorted(v, PAYLOAD);
      FieldValid(v, PAYLOAD);
    }
    match Field(v, PAYLOAD)
    case Some(x) =>
      PassesKeepStrings(x, PAYLOAD);
      StringFieldKept(x, TASK_ID);
      StringFieldKept(x, SCHEDULE_REVISION);
    case None =>
  }

  lemma {:induction false} JsStringKept(v: Json)
    ensures JsString(SortKeys(v)) == JsString(v) && JsString(Normalize(v)) == JsString(v)
  {
    match v
    case Arr(items) =>
      forall i | 0 <= i < |items|
        ensures JsString(SortKeys(items[i])) == JsString(items[i])
        ensures JsString(Normalize(items[i])) == JsString(items[i])
      {
        JsStringKept(items[i]);
      }
      var parts := seq(|items|, i requires 0 <= i < |items| => if items[i].Null? then [] else JsString(items[i]));
      var sorted, normal := SortKeys(v).items, Normalize(v).items;
      assert parts
          == seq(|sorted|, i requires 0 <= i < |sorted| => if sorted[i].Null? then [] else JsString(sorted[i]));
      assert parts
          == seq(|normal|, i requires 0 <= i < |normal| => if normal[i].Null? then [] else JsString(normal[i]));
    case _ =>
  }

  /** Neither sorting the members of objects nor sorting the sets inside an element moves the element. */
  lemma KeyKept(kind: SetKind, v: Json)
    ensures Valid(v) ==> KeyOf(kind, SortKeys(v)) == KeyOf(kind, v)
    ensures KeyOf(kind, Normalize(v)) == KeyOf(kind, v)
  {
    hide SortKeys, Normalize, StringField, EntityIdentity, JsString, Valid;
    StringFieldKept(v, ENTITY_TYPE);
    StringFieldKept(v, CLIENT_ID);
    StringFieldKept(v, ENTITY_ID);
    IdentityKept(v);
    JsStringKept(v);
  }

  // ---------------------------------------------------------------- the normalisation itself

  /** Sorting a set leaves a permutation of its elements in order. */
  lemma SortSetSorts(key: text, items: seq<Json>)
    requires KindOf(key).Some?
    ensures SortSet(key, Arr(items)).Arr?
    ensures multiset(SortSet(key, Arr(items)).items) == multiset(items)
    ensures Sorted(SortSet(key, Arr(items)).items, SetLess(KindOf(key).value))
  {
    SetLessIsOrder(KindOf(key).value);
    SortPermutes(items, SetLess(KindOf(key).value));
    SortSorted(items, SetLess(KindOf(key).value));
  }

  lemma SortSetValid(key: text, v: Json)
    requires Valid(v)
    ensures Valid(SortSet(key, v))
  {
    hide SetLess;
    if v.Arr? && KindOf(key).Some? {
      var less := SetLess(KindOf(key).value);
      forall i | 0 <= i < |v.items|
        ensures Valid(Sort(v.items, less)[i])
      {
        SortMember(v.items, less, Sort(v.items, less)[i]);
      }
    }
  }

  lemma {:induction false} NormalizeValid(v: Json)
    requires Valid(v)
    ensures Valid(Normalize(v))
  {
    match v
    case Arr(items) =>
      forall i | 0 <= i < |items|
        ensures Valid(Normalize(items[i]))
      {
        NormalizeValid(items[i]);
      }
    case Obj(members) =>
      forall i | 0 <= i < |members|
        ensures Valid(NormalizeMembers(members)[i].value)
      {
        NormalizeValid(members[i].value);
        SortSetValid(members[i].key, Normalize(members[i].value));
      }
    case _ =>
  }

  lemma SortSetNormal(key: text, v: Json)
    requires Normalize(v) == v
    ensures Normalize(SortSet(key, v)) == SortSet(key, v) && SortSet(key, SortSet(key, v)) == SortSet(key, v)
  {
    hide SetLess;
    if v.Arr? && KindOf(key).Some? {
      var less := SetLess(KindOf(key).value);
      var r := Sort(v.items, less);
      forall i | 0 <= i < |r|
        ensures Normalize(r[i]) == r[i]
      {
        SortMember(v.items, less, r[i]);
        var j :| 0 <= j < |v.items| && v.items[j] == r[i];
        assert Normalize(v).items[j] == Normalize(v.items[j]);
      }
      assert Normalize(Arr(r)).items == r;
      SortSetSorts(key, v.items);
      SortIdempotent(r, less);
    }
  }

  /** A second pass over a normalised value changes nothing. */
  lemma {:induction false} NormalizeIdempotent(v: Json)
    ensures Normalize(Normalize(v)) == Normalize(v)
  {
    match v
    case Arr(items) =>
      forall i | 0 <= i < |items|
        ensures Normalize(Normalize(items[i])) == Normalize(items[i])
      {
        NormalizeIdempotent(items[i]);
      }
    case Obj(members) =>
      var once := NormalizeMembers(members);
      var twice := NormalizeMembers(once);
      forall i | 0 <= i < |members|
        ensures twice[i] == once[i]
      {
        NormalizeIdempotent(members[i].value);
        SortSetNormal(members[i].key, Normalize(members[i].value));
      }
      assert twice == once;
    case _ =>
  }

  // ---------------------------------------------------------------- equality up to the order of sets

  /** The value whose printed form `requestDigest` hashes. */
  function Normal(v: Json): Json {
    SortKeys(Normalize(v))
  }

  function NormalFn(): Json -> Json {
    (v: Json) => Normal(v)
  }

  /** The same for the value of a member. */
  function NormalUnder(key: text, v: Json): Json {
    SortKeys(SortSet(key, Normalize(v)))
  }

  /** Equal up to the order of object members and of set elements, at every depth. */
  ghost predicate Rearranged(v: Json, w: Json)
    decreases v, 0
  {
    match (v, w)
    case (Arr(xs), Arr(ys)) => |xs| == |ys| && forall i :: 0 <= i < |xs| ==> Rearranged(xs[i], ys[i])
    case (Obj(ms), Obj(ns)) =>
      |ms| == |ns| && forall i :: 0 <= i < |ms| ==> RearrangedMember(ms[i], ns)
    case _ => v == w
  }

  ghost predicate RearrangedMember(m: Member, ns: seq<Member>)
    decreases m.value, 2
  {
    exists j :: 0 <= j < |ns| && m.key == ns[j].key && RearrangedUnder(m.key, m.value, ns[j].value)
  }

  ghost predicate RearrangedUnder(key: text, v: Json, w: Json)
    decreases v, 1
  {
    if KindOf(key).Some? && v.Arr? && w.Arr? then
      exists zs: seq<Json> :: multiset(zs) == multiset(w.items) && |zs| == |v.items|
        && forall i :: 0 <= i < |zs| ==> Rearranged(v.items[i], zs[i])
    else
      Rearranged(v, w)
  }

  /** At every depth, set elements that tie under the comparator differ only in order inside. */
  predicate Settled(v: Json)
    decreases v, 0
  {
    match v
    case Arr(items) => forall i :: 0 <= i < |items| ==> Settled(items[i])
    case Obj(members) => forall i :: 0 <= i < |members| ==> SettledUnder(members[i].key, members[i].value)
    case _ => true
  }

  predicate SettledUnder(key: text, v: Json)
    decreases v, 1
  {
    Settled(v) && (KindOf(key).Some? && v.Arr? ==> TiesSettled(KindOf(key).value, v.items))
  }

  predicate TiesSettled(kind: SetKind, items: seq<Json>) {
    forall i, j :: 0 <= i < |items| && 0 <= j < |items| && KeyOf(kind, items[i]) == KeyOf(kind, items[j]) ==>
      Normal(items[i]) == Normal(items[j])
  }

  /** Sorting a set commutes with sorting the members of its elements. */
  lemma SortedSet(kind: SetKind, items: seq<Json>)
    requires forall i :: 0 <= i < |items| ==> Valid(items[i])
    ensures Map(SortKeysFn(), Sort(items, SetLess(kind))) == Sort(Map(SortKeysFn(), items), SetLess(kind))
  {
    hide KeyOf, LessKey, Sort, SortKeys, Valid;
    var less := SetLess(kind);
    forall x, y | x in items && y in items
      ensures less(x, y) == less(SortKeysFn()(x), SortKeysFn()(y))
    {
      KeyKept(kind, x);
      KeyKept(kind, y);
    }
    SortMap(SortKeysFn(), items, less, less);
  }

  /** The normal form of a set is its sorted normal elements. */
  lemma NormalSet(key: text, items: seq<Json>)
    requires KindOf(key).Some?
    requires forall i :: 0 <= i < |items| ==> Valid(items[i])
    ensures NormalUnder(key, Arr(items)) == Arr(Sort(Map(NormalFn(), items), SetLess(KindOf(key).value)))
  {
    hide SetLess, Sort, Valid;
    var us := Normalize(Arr(items)).items;
    forall i | 0 <= i < |us|
      ensures Valid(us[i])
    {
      NormalizeValid(items[i]);
    }
    SortedSet(KindOf(key).value, us);
    assert Map(SortKeysFn(), us) == Map(NormalFn(), items);
    var sorted := Sort(us, SetLess(KindOf(key).value));
    assert SortKeys(Arr(sorted)).items == Map(SortKeysFn(), sorted);
  }

  lemma KeyOfNormal(kind: SetKind, v: Json)
    requires Valid(v)
    ensures KeyOf(kind, Normal(v)) == KeyOf(kind, v)
  {
    hide KeyOf, SortKeys, Normalize;
    NormalizeValid(v);
    KeyKept(kind, Normalize(v));
    KeyKept(kind, v);
  }

  /** In a settled set, tied normal elements are equal. */
  lemma SettledTies(kind: SetKind, items: seq<Json>)
    requires TiesSettled(kind, items)
    requires forall i :: 0 <= i < |items| ==> Valid(items[i])
    ensures TiesEqual(Map(NormalFn(), items), SetLess(kind))
  {
    hide KeyOf, Normal, SetLess, Valid;
    var us := Map(NormalFn(), items);
    SetLessIsOrder(kind);
    forall i, j | 0 <= i < |us| && 0 <= j < |us|
      ensures us[i] == us[j] || SetLess(kind)(us[i], us[j]) || SetLess(kind)(us[j], us[i])
    {
      KeyOfNormal(kind, items[i]);
      KeyOfNormal(kind, items[j]);
    }
  }

  /** Two listings of a settled set have one normal form. */
  lemma NormalSetPermuted(key: text, xs: seq<Json>, ys: seq<Json>)
    requires KindOf(key).Some? && Valid(Arr(xs)) && Valid(Arr(ys))
    requires multiset(Map(NormalFn(), xs)) == multiset(Map(NormalFn(), ys))
    requires TiesSettled(KindOf(key).value, xs)
    ensures NormalUnder(key, Arr(xs)) == NormalUnder(key, Arr(ys))
  {
    hide SetLess, NormalUnder, Normal, TiesSettled, TiesEqual, StrictWeakOrder, Sort, Map;
    var kind := KindOf(key).value;
    NormalSet(key, xs);
    NormalSet(key, ys);
    SettledTies(kind, xs);
    SetLessIsOrder(kind);
    SortPermuted(Map(NormalFn(), xs), Map(NormalFn(), ys), SetLess(kind));
  }

  // ---------------------------------------------------------------- rearranging does not change the normal form

  lemma PlainMember(key: text, v: Json)
    ensures !(KindOf(key).Some? && v.Arr?) ==> NormalUnder(key, v) == Normal(v)
    ensures NormalUnder(key, v).Arr? == v.Arr? == Normal(v).Arr?
  {
  }

  ghost predicate NormalMember(m: Member, ns: seq<Member>) {
    exists j :: 0 <= j < |ns| && m.key == ns[j].key
             && NormalUnder(m.key, m.value) == NormalUnder(m.key, ns[j].value)
  }

  /** Members matched by key with equal normal forms have one normal form. */
  lemma NormalMembers(ms: seq<Member>, ns: seq<Member>)
    requires DistinctKeys(ms) && |ms| == |ns|
    requires forall i :: 0 <= i < |ms| ==> NormalMember(ms[i], ns)
    ensures Normal(Obj(ms)) == Normal(Obj(ns))
  {
    hide SortSet, Sort;
    var xs, ys := NormalizeMembers(ms), NormalizeMembers(ns);
    forall i | 0 <= i < |xs|
      ensures HasMatch(xs[i], ys)
    {
      assert NormalMember(ms[i], ns);
      var j :| 0 <= j < |ns| && ms[i].key == ns[j].key
        && NormalUnder(ms[i].key, ms[i].value) == NormalUnder(ms[i].key, ns[j].value);
      assert ys[j].key == xs[i].key && SortKeys(xs[i].value) == SortKeys(ys[j].value);
    }
    SameMembersSortAlike(xs, ys);
  }

  /** Rearranged values have one normal form, if the first is settled. */
  lemma {:induction false} RearrangedIsNormal(v: Json, w: Json)
    requires Valid(v) && Valid(w) && Settled(v) && Rearranged(v, w)
    ensures Normal(v) == Normal(w)
    decreases v, 0
  {
    match (v, w)
    case (Arr(xs), Arr(ys)) =>
      forall i | 0 <= i < |xs|
        ensures Normal(v).items[i] == Normal(w).items[i]
      {
        RearrangedIsNormal(xs[i], ys[i]);
      }
    case (Obj(ms), Obj(ns)) =>
      forall i | 0 <= i < |ms|
        ensures NormalMember(ms[i], ns)
      {
        assert RearrangedMember(ms[i], ns);
        var j :| 0 <= j < |ns| && ms[i].key == ns[j].key && RearrangedUnder(ms[i].key, ms[i].value, ns[j].value);
        RearrangedIsNormalUnder(ms[i].key, ms[i].value, ns[j].value);
      }
      NormalMembers(ms, ns);
    case _ =>
  }

  lemma {:induction false} RearrangedIsNormalUnder(key: text, v: Json, w: Json)
    requires Valid(v) && Valid(w) && SettledUnder(key, v) && RearrangedUnder(key, v, w)
    ensures NormalUnder(key, v) == NormalUnder(key, w)
    decreases v, 1
  {
    hide NormalUnder, Normal, TiesSettled, Rearranged, Settled, KindOf, Valid;
    PlainMember(key, v);
    PlainMember(key, w);
    if KindOf(key).Some? && v.Arr? && w.Arr? {
      var zs: seq<Json> :| multiset(zs) == multiset(w.items) && |zs| == |v.items|
        && forall i :: 0 <= i < |zs| ==> Rearranged(v.items[i], zs[i]);
      RearrangedSetIsNormal(v.items, w.items, zs);
      NormalSetMatched(key, v.items, w.items, zs);
    } else {
      RearrangedIsNormal(v, w);
      assert v.Arr? == w.Arr?;
    }
  }

  lemma {:induction false} RearrangedSetIsNormal(xs: seq<Json>, ys: seq<Json>, zs: seq<Json>)
    requires Valid(Arr(xs)) && Valid(Arr(ys)) && Settled(Arr(xs))
    requires multiset(zs) == multiset(ys) && |zs| == |xs|
    requires forall i :: 0 <= i < |zs| ==> Rearranged(xs[i], zs[i])
    ensures forall i :: 0 <= i < |xs| ==> Normal(xs[i]) == Normal(zs[i])
    decreases Arr(xs), 0
  {
    hide Normal, Rearranged;
    forall i | 0 <= i < |xs|
      ensures Normal(xs[i]) == Normal(zs[i])
    {
      assert zs[i] in multiset(ys);
      RearrangedIsNormal(xs[i], zs[i]);
    }
  }

  /** The same when the second listing is matched through a permutation of it. */
  lemma NormalSetMatched(key: text, xs: seq<Json>, ys: seq<Json>, zs: seq<Json>)
    requires KindOf(key).Some? && Valid(Arr(xs)) && Valid(Arr(ys)) && TiesSettled(KindOf(key).value, xs)
    requires multiset(zs) == multiset(ys) && |zs| == |xs|
    requires forall i :: 0 <= i < |xs| ==> Normal(xs[i]) == Normal(zs[i])
    ensures NormalUnder(key, Arr(xs)) == NormalUnder(key, Arr(ys))
  {
    hide Normal, NormalUnder, TiesSettled, Valid;
    assert Map(NormalFn(), xs) == Map(NormalFn(), zs);
    MapMultiset(NormalFn(), zs, ys);
    NormalSetPermuted(key, xs, ys);
  }

  // ---------------------------------------------------------------- the normal form forgets nothing else

  /** A permutation of images is the image of a permutation. */
  lemma {:induction false} PermuteBack<T, U>(f: T -> U, xs: seq<T>, ys: seq<T>) returns (zs: seq<T>)
    requires multiset(Map(f, xs)) == multiset(Map(f, ys))
    ensures multiset(zs) == multiset(ys) && Map(f, zs) == Map(f, xs)
    decreases |xs|
  {
    SameSize(Map(f, xs), Map(f, ys));
    if |xs| == 0 {
      zs := ys;
    } else {
      var j := Occurrence(Map(f, xs), Map(f, ys));
      MapRemoveAt(f, xs, 0);
      MapRemoveAt(f, ys, j);
      var xr, yr := xs[..0] + xs[1..], ys[..j] + ys[j + 1..];
      Cancel(multiset(Map(f, xr)), multiset(Map(f, yr)), f(xs[0]));
      var rest := PermuteBack(f, xr, yr);
      zs := [ys[j]] + rest;
      RemoveAt(ys, j);
      assert Map(f, zs) == [f(ys[j])] + Map(f, rest);
      assert Map(f, xs) == [f(xs[0])] + Map(f, xr);
    }
  }

  lemma SortedAlike<T>(xs: seq<T>, ys: seq<T>, less: (T, T) -> bool)
    requires Sort(xs, less) == Sort(ys, less)
    ensures multiset(xs) == multiset(ys)
  {
    SortPermutes(xs, less);
    SortPermutes(ys, less);
  }

  lemma NormalShape(v: Json, w: Json)
    requires Normal(v) == Normal(w)
    ensures v.Arr? == w.Arr? && v.Obj? == w.Obj?
    ensures !v.Arr? && !v.Obj? ==> v == w
  {
  }

  /** Values with one normal form are rearrangements of each other. */
  lemma {:induction false} NormalIsRearranged(v: Json, w: Json)
    requires Valid(v) && Valid(w) && Normal(v) == Normal(w)
    ensures Rearranged(v, w)
    decreases v, 0
  {
    hide SortKeys, Normalize;
    NormalShape(v, w);
    match (v, w)
    case (Arr(xs), Arr(ys)) =>
      NormalItems(xs, ys);
      forall i | 0 <= i < |xs|
        ensures Rearranged(xs[i], ys[i])
      {
        NormalIsRearranged(xs[i], ys[i]);
      }
    case (Obj(ms), Obj(ns)) =>
      NormalLength(ms, ns);
      forall i | 0 <= i < |ms|
        ensures RearrangedMember(ms[i], ns)
      {
        var j := NormalMatch(ms, ns, i);
        NormalIsRearrangedUnder(ms[i].key, ms[i].value, ns[j].value);
      }
    case _ =>
  }

  lemma NormalItems(xs: seq<Json>, ys: seq<Json>)
    requires Normal(Arr(xs)) == Normal(Arr(ys))
    ensures |xs| == |ys| && forall i :: 0 <= i < |xs| ==> Normal(xs[i]) == Normal(ys[i])
  {
    var us, vs := Normal(Arr(xs)).items, Normal(Arr(ys)).items;
    assert |us| == |xs| && |vs| == |ys|;
    assert forall i :: 0 <= i < |xs| ==> us[i] == Normal(xs[i]);
    assert forall i :: 0 <= i < |ys| ==> vs[i] == Normal(ys[i]);
  }

  lemma NormalLength(ms: seq<Member>, ns: seq<Member>)
    requires Normal(Obj(ms)) == Normal(Obj(ns))
    ensures |ms| == |ns|
  {
    hide SortSet, Sort;
    AlikeLength(NormalizeMembers(ms), NormalizeMembers(ns));
  }

  /** In an object with the same normal form there is a member with the same key and normal value. */
  lemma NormalMatch(ms: seq<Member>, ns: seq<Member>, i: nat) returns (j: nat)
    requires Normal(Obj(ms)) == Normal(Obj(ns)) && i < |ms|
    ensures j < |ns| && ms[i].key == ns[j].key
      && NormalUnder(ms[i].key, ms[i].value) == NormalUnder(ms[i].key, ns[j].value)
  {
    hide SortSet, Sort;
    var xs, ys := NormalizeMembers(ms), NormalizeMembers(ns);
    AlikeMember(xs, ys, i);
    j :| 0 <= j < |ys| && xs[i].key == ys[j].key && SortKeys(xs[i].value) == SortKeys(ys[j].value);
  }

  lemma {:induction false} NormalIsRearrangedUnder(key: text, v: Json, w: Json)
    requires Valid(v) && Valid(w) && NormalUnder(key, v) == NormalUnder(key, w)
    ensures RearrangedUnder(key, v, w)
    decreases v, 1
  {
    hide NormalUnder, Normal, SetLess, Sort;
    PlainMember(key, v);
    PlainMember(key, w);
    if KindOf(key).Some? && v.Arr? && w.Arr? {
      var xs, ys := v.items, w.items;
      NormalSet(key, xs);
      NormalSet(key, ys);
      SortedAlike(Map(NormalFn(), xs), Map(NormalFn(), ys), SetLess(KindOf(key).value));
      var zs := PermuteBack(NormalFn(), xs, ys);
      assert |zs| == |Map(NormalFn(), zs)| == |xs|;
      forall i | 0 <= i < |zs|
        ensures Rearranged(xs[i], zs[i])
      {
        assert zs[i] in multiset(ys);
        assert Map(NormalFn(), zs)[i] == Map(NormalFn(), xs)[i];
        NormalIsRearranged(xs[i], zs[i]);
      }
    } else {
      NormalIsRearranged(v, w);
    }
  }

  // ---------------------------------------------------------------- unsettled values do depend on the order

  /** The elements whose key is `k`, in order. */
  function WithKey(kind: SetKind, k: seq<text>, items: seq<Json>): seq<Json> {
    if |items| == 0 then []
    else (if KeyOf(kind, items[0]) == k then [items[0]] else []) + WithKey(kind, k, items[1..])
  }

  lemma {:induction false} WithKeyConcat(kind: SetKind, k: seq<text>, xs: seq<Json>, ys: seq<Json>)
    ensures WithKey(kind, k, xs + ys) == WithKey(kind, k, xs) + WithKey(kind, k, ys)
  {
    hide KeyOf;
    if |xs| == 0 {
      assert xs + ys == ys;
    } else {
      assert (xs + ys)[1..] == xs[1..] + ys && (xs + ys)[0] == xs[0];
      WithKeyConcat(kind, k, xs[1..], ys);
      var head := if KeyOf(kind, xs[0]) == k then [xs[0]] else [];
      var a, b := WithKey(kind, k, xs[1..]), WithKey(kind, k, ys);
      assert WithKey(kind, k, xs + ys) == head + (a + b);
      assert head + (a + b) == (head + a) + b;
    }
  }

  lemma WithKeyOne(kind: SetKind, k: seq<text>, x: Json)
    ensures WithKey(kind, k, [x]) == if KeyOf(kind, x) == k then [x] else []
  {
    hide KeyOf;
    assert WithKey(kind, k, [x][1..]) == [];
  }

  lemma {:induction false} InsertKeepsTies(kind: SetKind, k: seq<text>, xs: seq<Json>, x: Json)
    ensures WithKey(kind, k, Insert(xs, x, SetLess(kind))) == WithKey(kind, k, xs) + WithKey(kind, k, [x])
  {
    hide KeyOf, WithKey, SetLess;
    var n := |xs|;
    if n > 0 && SetLess(kind)(x, xs[n - 1]) {
      var init, last := xs[..n - 1], xs[n - 1];
      assert xs == init + [last];
      SetLessIsOrder(kind);
      InsertKeepsTies(kind, k, init, x);
      WithKeyConcat(kind, k, init, [last]);
      WithKeyConcat(kind, k, Insert(init, x, SetLess(kind)), [last]);
      WithKeyOne(kind, k, x);
      WithKeyOne(kind, k, last);
      assert KeyOf(kind, x) != KeyOf(kind, last);
    } else {
      WithKeyConcat(kind, k, xs, [x]);
    }
  }

  /** The sort is stable: elements with one key keep their order. */
  lemma {:induction false} SortKeepsTies(kind: SetKind, k: seq<text>, xs: seq<Json>)
    ensures WithKey(kind, k, Sort(xs, SetLess(kind))) == WithKey(kind, k, xs)
  {
    hide KeyOf, WithKey, SetLess, Insert;
    var n := |xs|;
    if n > 0 {
      SortKeepsTies(kind, k, xs[..n - 1]);
      InsertKeepsTies(kind, k, Sort(xs[..n - 1], SetLess(kind)), xs[n - 1]);
      WithKeyConcat(kind, k, xs[..n - 1], [xs[n - 1]]);
      assert xs == xs[..n - 1] + [xs[n - 1]];
    }
  }

  /** Exchanging two different elements with one key changes what the sort returns. */
  lemma ExchangeShows(kind: SetKind, before: seq<Json>, a: Json, b: Json, tail: seq<Json>, others: seq<Json>)
    requires KeyOf(kind, a) == KeyOf(kind, b) && a != b
    ensures Sort(before + [a] + tail, SetLess(kind)) != Sort(before + [b] + others, SetLess(kind))
  {
    hide KeyOf, WithKey, SetLess, Sort;
    var k := KeyOf(kind, a);
    SortKeepsTies(kind, k, before + [a] + tail);
    SortKeepsTies(kind, k, before + [b] + others);
    WithKeyConcat(kind, k, before + [a], tail);
    WithKeyConcat(kind, k, before, [a]);
    WithKeyConcat(kind, k, before + [b], others);
    WithKeyConcat(kind, k, before, [b]);
    WithKeyOne(kind, k, a);
    WithKeyOne(kind, k, b);
    var p := |WithKey(kind, k, before)|;
    assert WithKey(kind, k, before + [a] + tail)[p] == a;
    assert WithKey(kind, k, before + [b] + others)[p] == b;
  }

  /** A permutation of a set is a rearrangement of it. */
  lemma PermutedIsRearranged(key: text, xs: seq<Json>, ys: seq<Json>)
    requires KindOf(key).Some? && Valid(Arr(xs)) && multiset(xs) == multiset(ys)
    ensures Valid(Arr(ys)) && RearrangedUnder(key, Arr(xs), Arr(ys))
  {
    hide KindOf, Rearranged;
    forall p | 0 <= p < |xs|
      ensures Rearranged(xs[p], xs[p])
    {
      NormalIsRearranged(xs[p], xs[p]);
    }
    forall p | 0 <= p < |ys|
      ensures Valid(ys[p])
    {
      assert ys[p] in multiset(xs);
    }
    SameSize(xs, ys);
  }

  /** The sort shows the first difference between two lists if the elements there tie. */
  lemma DifferenceShows(kind: SetKind, us: seq<Json>, vs: seq<Json>, i: nat)
    requires |us| == |vs| && i < |us| && us[..i] == vs[..i]
    requires us[i] != vs[i] && KeyOf(kind, us[i]) == KeyOf(kind, vs[i])
    ensures Sort(us, SetLess(kind)) != Sort(vs, SetLess(kind))
  {
    hide KeyOf, SetLess, Sort;
    assert us == us[..i] + [us[i]] + us[i + 1..];
    assert vs == us[..i] + [vs[i]] + vs[i + 1..];
    ExchangeShows(kind, us[..i], us[i], vs[i], us[i + 1..], vs[i + 1..]);
  }

  function Exchange(xs: seq<Json>, i: nat, j: nat): (ys: seq<Json>)
    requires i < j < |xs|
    ensures |ys| == |xs| && ys[i] == xs[j] && ys[..i] == xs[..i]
  {
    xs[i := xs[j]][j := xs[i]]
  }

  lemma ExchangePermutes(xs: seq<Json>, i: nat, j: nat)
    requires i < j < |xs|
    ensures multiset(xs) == multiset(Exchange(xs, i, j))
  {
  }

  /** Exchanging two tied elements that differ in more than inner order changes the normal form. */
  lemma UnsettledTie(key: text, xs: seq<Json>, i: nat, j: nat)
    requires KindOf(key).Some? && Valid(Arr(xs)) && i < j < |xs|
    requires KeyOf(KindOf(key).value, xs[i]) == KeyOf(KindOf(key).value, xs[j]) && Normal(xs[i]) != Normal(xs[j])
    ensures var ys := Exchange(xs, i, j);
      Valid(Arr(ys)) && RearrangedUnder(key, Arr(xs), Arr(ys)) && NormalUnder(key, Arr(xs)) != NormalUnder(key, Arr(ys))
  {
    hide KeyOf, Normal, NormalUnder, SetLess, Sort, RearrangedUnder, KindOf, Exchange, Valid;
    var ys, kind := Exchange(xs, i, j), KindOf(key).value;
    ExchangePermutes(xs, i, j);
    PermutedIsRearranged(key, xs, ys);
    ValidItems(xs);
    ValidItems(ys);
    NormalSet(key, xs);
    NormalSet(key, ys);
    KeyOfNormal(kind, xs[i]);
    KeyOfNormal(kind, xs[j]);
    var us, vs := Map(NormalFn(), xs), Map(NormalFn(), ys);
    assert us[..i] == vs[..i];
    DifferenceShows(kind, us, vs, i);
  }

  lemma ValidItems(xs: seq<Json>)
    requires Valid(Arr(xs))
    ensures forall i :: 0 <= i < |xs| ==> Valid(xs[i])
  {
  }

  lemma ReplacedItem(key: text, xs: seq<Json>, i: nat, y: Json)
    requires i < |xs| && Valid(Arr(xs)) && Valid(y) && Rearranged(xs[i], y) && Normal(xs[i]) != Normal(y)
    ensures Valid(Arr(xs[i := y])) && Rearranged(Arr(xs), Arr(xs[i := y]))
    ensures Normal(Arr(xs)) != Normal(Arr(xs[i := y]))
    ensures KindOf(key).Some? ==> RearrangedUnder(key, Arr(xs), Arr(xs[i := y]))
    ensures KindOf(key).Some? ==> NormalUnder(key, Arr(xs)) != NormalUnder(key, Arr(xs[i := y]))
  {
    hide Normal, NormalUnder, SetLess, Sort, KindOf;
    var ys := xs[i := y];
    forall p | 0 <= p < |xs|
      ensures Rearranged(xs[p], ys[p]) && Valid(ys[p])
    {
      if p != i {
        NormalIsRearranged(xs[p], xs[p]);
      }
    }
    if Normal(Arr(xs)) == Normal(Arr(ys)) {
      NormalItems(xs, ys);
    }
    if KindOf(key).Some? {
      NormalSet(key, xs);
      NormalSet(key, ys);
      var us := Map(NormalFn(), xs);
      assert Map(NormalFn(), ys) == us[i := Normal(y)];
      OneChange(us, i, Normal(y));
      if NormalUnder(key, Arr(xs)) == NormalUnder(key, Arr(ys)) {
        SortedAlike(us, us[i := Normal(y)], SetLess(KindOf(key).value));
      }
    }
  }

  lemma OneChange<T>(us: seq<T>, i: nat, u: T)
    requires i < |us| && us[i] != u
    ensures multiset(us[i := u]) != multiset(us)
  {
    assert multiset(us[i := u])[u] == multiset(us)[u] + 1;
  }

  lemma ReplacedValid(ms: seq<Member>, i: nat, w: Json)
    requires i < |ms| && Valid(Obj(ms)) && Valid(w)
    ensures var ns := ms[i := Member(ms[i].key, w)]; Valid(Obj(ns)) && DistinctKeys(ns)
    ensures forall p :: 0 <= p < |ms| ==> Valid(ms[p].value)
  {
  }

  lemma ReplacedMember(ms: seq<Member>, i: nat, w: Json)
    requires i < |ms| && Valid(Obj(ms)) && Valid(w)
    requires RearrangedUnder(ms[i].key, ms[i].value, w)
    requires NormalUnder(ms[i].key, ms[i].value) != NormalUnder(ms[i].key, w)
    ensures var ns := ms[i := Member(ms[i].key, w)];
      Valid(Obj(ns)) && Rearranged(Obj(ms), Obj(ns)) && Normal(Obj(ms)) != Normal(Obj(ns))
  {
    hide NormalUnder, RearrangedUnder, Normal, Valid;
    var ns := ms[i := Member(ms[i].key, w)];
    ReplacedValid(ms, i, w);
    forall p | 0 <= p < |ms|
      ensures RearrangedMember(ms[p], ns)
    {
      if p != i {
        NormalIsRearrangedUnder(ms[p].key, ms[p].value, ms[p].value);
      }
      assert ms[p].key == ns[p].key && RearrangedUnder(ms[p].key, ms[p].value, ns[p].value);
    }
    if Normal(Obj(ms)) == Normal(Obj(ns)) {
      NormalMemberAt(ms, ns, i);
    }
  }

  lemma NormalMemberAt(ms: seq<Member>, ns: seq<Member>, i: nat)
    requires Normal(Obj(ms)) == Normal(Obj(ns)) && DistinctKeys(ns)
    requires i < |ms| && i < |ns| && ms[i].key == ns[i].key
    ensures NormalUnder(ms[i].key, ms[i].value) == NormalUnder(ms[i].key, ns[i].value)
  {
    hide Normal, NormalUnder;
    var j := NormalMatch(ms, ns, i);
    assert j == i;
  }

  predicate SameKeys(ms: seq<Member>, ns: seq<Member>) {
    |ms| == |ns| && forall i :: 0 <= i < |ms| ==> ms[i].key == ns[i].key
  }

  /** An unsettled value has a rearrangement with another normal form. */
  lemma {:induction false} Unsettled(v: Json) returns (w: Json)
    requires Valid(v) && !Settled(v)
    ensures Valid(w) && Rearranged(v, w) && Normal(v) != Normal(w)
    ensures v.Obj? ==> w.Obj? && SameKeys(v.members, w.members)
    decreases v, 0
  {
    hide Normal, Rearranged;
    match v
    case Arr(items) =>
      var i :| 0 <= i < |items| && !Settled(items[i]);
      var y := Unsettled(items[i]);
      ReplacedItem([], items, i, y);
      w := Arr(items[i := y]);
    case Obj(members) =>
      var i :| 0 <= i < |members| && !SettledUnder(members[i].key, members[i].value);
      var y := UnsettledUnder(members[i].key, members[i].value);
      ReplacedMember(members, i, y);
      w := Obj(members[i := Member(members[i].key, y)]);
    case _ => w := v;
  }

  lemma {:induction false} UnsettledUnder(key: text, v: Json) returns (w: Json)
    requires Valid(v) && !SettledUnder(key, v)
    ensures Valid(w) && RearrangedUnder(key, v, w) && NormalUnder(key, v) != NormalUnder(key, w)
    decreases v, 1
  {
    hide Normal, NormalUnder, Rearranged, KindOf, KeyOf;
    PlainMember(key, v);
    if !(KindOf(key).Some? && v.Arr?) {
      w := Unsettled(v);
      PlainMember(key, w);
    } else if Settled(v) {
      var i, j :| 0 <= i < |v.items| && 0 <= j < |v.items|
        && KeyOf(KindOf(key).value, v.items[i]) == KeyOf(KindOf(key).value, v.items[j])
        && Normal(v.items[i]) != Normal(v.items[j]);
      var lo, hi := if i < j then i else j, if i < j then j else i;
      UnsettledTie(key, v.items, lo, hi);
      w := Arr(Exchange(v.items, lo, hi));
    } else {
      var i :| 0 <= i < |v.items| && !Settled(v.items[i]);
      var y := Unsettled(v.items[i]);
      ReplacedItem(key, v.items, i, y);
      w := Arr(v.items[i := y]);
    }
  }

  // ---------------------------------------------------------------- the request digest

  /** What the digest of an envelope is about. */
  function Contents(envelope: Json): Json
    requires envelope.Obj?
  {
    Obj(Without(envelope.members))
  }

  lemma {:induction false} WithoutKeeps(members: seq<Member>)
    ensures forall i :: 0 <= i < |Without(members)| ==> Without(members)[i] in members
    ensures DistinctKeys(members) ==> DistinctKeys(Without(members))
  {
    if |members| > 0 {
      WithoutKeeps(members[1..]);
      var rest := Without(members[1..]);
      forall i | 0 <= i < |rest|
        ensures rest[i] in members
        ensures DistinctKeys(members) ==> rest[i].key != members[0].key
      {
        var j :| 0 <= j < |members| - 1 && members[1..][j] == rest[i];
        assert members[j + 1] == rest[i];
      }
    }
  }

  lemma ContentsValid(v: Json)
    requires v.Obj? && Valid(v)
    ensures Valid(Contents(v))
  {
    WithoutKeeps(v.members);
  }

  /** Two envelopes have one canonical text exactly when their normal forms are equal. */
  lemma RequestTextIsNormal(v: Json, w: Json)
    requires v.Obj? && w.Obj? && Valid(v) && Valid(w)
    ensures RequestText(v) == RequestText(w) <==> Normal(Contents(v)) == Normal(Contents(w))
  {
    hide Normalize, SortKeys, CanonicalizeValue, Without, Valid, SameUpToKeyOrder;
    ContentsValid(v);
    ContentsValid(w);
    NormalizeValid(Contents(v));
    NormalizeValid(Contents(w));
    CanonicalInjective(Normalize(Contents(v)), Normalize(Contents(w)));
    SameNormalForm(Normalize(Contents(v)), Normalize(Contents(w)));
  }

  /** The text behind the digest is the same for exactly the envelopes with the same contents up to
      the order of object members and of set elements, whenever tied set elements agree. */
  lemma RequestTextIgnoresOrder(v: Json, w: Json)
    requires v.Obj? && w.Obj? && Valid(v) && Valid(w) && Settled(Contents(v))
    ensures RequestText(v) == RequestText(w) <==> Rearranged(Contents(v), Contents(w))
    ensures Rearranged(Contents(v), Contents(w)) ==> RequestDigest(v) == RequestDigest(w)
  {
    hide Normal, Contents, Rearranged, Settled, Valid, RequestText, Sha256Text;
    RequestTextIsNormal(v, w);
    ContentsValid(v);
    ContentsValid(w);
    if Rearranged(Contents(v), Contents(w)) {
      RearrangedIsNormal(Contents(v), Contents(w));
    }
    if Normal(Contents(v)) == Normal(Contents(w)) {
      NormalIsRearranged(Contents(v), Contents(w));
    }
  }

  ghost predicate OrderBlind(v: Json)
    requires v.Obj?
  {
    forall w: Json :: w.Obj? && Valid(w) && Rearranged(Contents(v), Contents(w)) ==> RequestText(w) == RequestText(v)
  }

  /** The text ignores every reordering exactly when tied set elements agree at every depth. For
      `field_paths` this is about hosts that leave tied paths in their places. */
  lemma OrderBlindIffSettled(v: Json)
    requires v.Obj? && Valid(v)
    ensures OrderBlind(v) <==> Settled(Contents(v))
  {
    hide Normal, Rearranged, Settled, Valid, RequestText, SettledUnder;
    ContentsValid(v);
    if Settled(Contents(v)) {
      forall w: Json | w.Obj? && Valid(w) && Rearranged(Contents(v), Contents(w))
        ensures RequestText(w) == RequestText(v)
      {
        RequestTextIgnoresOrder(v, w);
      }
    } else {
      var w := Unsettled(Contents(v));
      NothingDropped(Contents(v).members);
      WithoutTwice(v.members);
      NothingDroppedAgain(Contents(v).members, w.members);
      assert Contents(w) == w;
      RequestTextIsNormal(v, w);
    }
  }

  predicate Dropped(key: text) {
    key == REQUEST_DIGEST || key == FORWARDED_BY
  }

  lemma {:induction false} NothingDropped(members: seq<Member>)
    ensures Without(members) == members <==> forall i :: 0 <= i < |members| ==> !Dropped(members[i].key)
  {
    if |members| > 0 {
      NothingDropped(members[1..]);
      assert members == [members[0]] + members[1..];
      if Dropped(members[0].key) {
        WithoutShrinks(members[1..]);
      }
    }
  }

  lemma {:induction false} WithoutShrinks(members: seq<Member>)
    ensures |Without(members)| <= |members|
  {
    if |members| > 0 {
      WithoutShrinks(members[1..]);
    }
  }

  lemma {:induction false} WithoutTwice(members: seq<Member>)
    ensures Without(Without(members)) == Without(members)
  {
    if |members| > 0 {
      WithoutTwice(members[1..]);
    }
  }

  lemma NothingDroppedAgain(ms: seq<Member>, ns: seq<Member>)
    requires Without(ms) == ms && SameKeys(ms, ns)
    ensures Without(ns) == ns
  {
    NothingDropped(ms);
    NothingDropped(ns);
  }

  /** The digest does not see `request_digest` or `forwarded_by_device_client_id`, wherever they are. */
  lemma {:induction false} DroppedMemberUnseen(members: seq<Member>, i: nat, m: Member)
    requires i <= |members| && Dropped(m.key)
    ensures RequestDigest(Obj(members[..i] + [m] + members[i..])) == RequestDigest(Obj(members))
  {
    hide CanonicalizeValue, Normalize, Sha256Text;
    WithoutInserted(members, i, m);
  }

  lemma {:induction false} WithoutInserted(members: seq<Member>, i: nat, m: Member)
    requires i <= |members| && Dropped(m.key)
    ensures Without(members[..i] + [m] + members[i..]) == Without(members)
  {
    var r := members[..i] + [m] + members[i..];
    if i == 0 {
      assert r[1..] == members;
    } else {
      assert r[1..] == members[1..][..i - 1] + [m] + members[1..][i - 1..];
      WithoutInserted(members[1..], i - 1, m);
    }
  }

  /** 1 and "1" are one text to the comparator of `field_paths`, so their order reaches the digest. */
  lemma TiedPathsShowTheirOrder(v: Json)
    requires v == Obj([Member(FIELD_PATHS, Arr([Num(1), Str([49])]))])
    ensures Valid(v) && !OrderBlind(v)
  {
    hide SetLess, Normalize, Normal, OrderBlind, Settled;
    var xs := v.members[0].value.items;
    assert Without(v.members) == v.members by { PathsAreNotDropped(); assert v.members[1..] == []; }
    assert KeyOf(Paths, xs[0]) == KeyOf(Paths, xs[1]) by { assert Digits(1) == [49]; }
    NormalLeaf(xs[0]);
    NormalLeaf(xs[1]);
    PathsAreASet(xs);
    SettledMember(v, 0);
    OrderBlindIffSettled(v);
  }

  lemma PathsAreNotDropped()
    ensures !Dropped(FIELD_PATHS)
  {
    assert |FIELD_PATHS| == 11 && |REQUEST_DIGEST| == 14 && |FORWARDED_BY| == 29;
  }

  lemma PathsAreASet(xs: seq<Json>)
    ensures SettledUnder(FIELD_PATHS, Arr(xs)) ==> TiesSettled(Paths, xs)
  {
    assert |FIELD_PATHS| == 11 && |ENTITIES| == 8 && |IDENTITY_MAPPINGS| == 17;
  }

  lemma SettledMember(v: Json, i: nat)
    requires v.Obj? && i < |v.members|
    ensures Settled(v) ==> SettledUnder(v.members[i].key, v.members[i].value)
  {
  }

  lemma NormalLeaf(v: Json)
    requires !v.Arr? && !v.Obj?
    ensures Normal(v) == v
  {
  }

  // ---------------------------------------------------------------- the page checksum

  /** The text `pageChecksum` hashes. */
  function PageText(snapshotId: text, pageIndex: int, asOfSequence: text, entities: seq<Json>): text {
    CanonicalizeValue(Page(snapshotId, pageIndex, asOfSequence, entities))
  }

  lemma PageKeys()
    ensures |Ascii("snapshot_id")| == 11 && |Ascii("page_index")| == 10
    ensures |Ascii("as_of_sequence")| == 14 && |ENTITIES| == 8
  {
  }

  lemma PageValid(snapshotId: text, pageIndex: int, asOfSequence: text, entities: seq<Json>)
    requires -MAX_SAFE_INTEGER <= pageIndex <= MAX_SAFE_INTEGER && Valid(Arr(entities))
    ensures Valid(Page(snapshotId, pageIndex, asOfSequence, entities))
  {
    hide SetLess, Sort;
    var r := Sort(entities, SetLess(Entities));
    forall i | 0 <= i < |r|
      ensures Valid(r[i])
    {
      SortMember(entities, SetLess(Entities), r[i]);
    }
    PageKeys();
  }

  /** Pages are equal up to key order exactly when all four fields are. */
  lemma PageFields(s: text, p: int, q: text, es: seq<Json>, t: text, o: int, r: text, fs: seq<Json>)
    ensures SameUpToKeyOrder(Page(s, p, q, es), Page(t, o, r, fs)) <==>
            s == t && p == o && q == r
            && SameUpToKeyOrder(Arr(Sort(es, SetLess(Entities))), Arr(Sort(fs, SetLess(Entities))))
  {
    hide SetLess, Sort, SameUpToKeyOrder;
    PageKeys();
    var ms, ns := Page(s, p, q, es).members, Page(t, o, r, fs).members;
    AlignedMembers(ms, ns);
    SameLeaf(ms[0].value, ns[0].value);
    SameLeaf(ms[1].value, ns[1].value);
    SameLeaf(ms[2].value, ns[2].value);
    assert |ms| == 4;
    assert ms[3].value == Arr(Sort(es, SetLess(Entities))) && ns[3].value == Arr(Sort(fs, SetLess(Entities)));
  }

  lemma SameLeaf(v: Json, w: Json)
    requires !v.Arr? && !v.Obj?
    ensures SameUpToKeyOrder(v, w) <==> v == w
  {
  }

  ghost predicate SameMember(m: Member, ns: seq<Member>) {
    exists j :: 0 <= j < |ns| && m.key == ns[j].key && SameUpToKeyOrder(m.value, ns[j].value)
  }

  lemma SameObjects(ms: seq<Member>, ns: seq<Member>)
    ensures SameUpToKeyOrder(Obj(ms), Obj(ns)) <==> |ms| == |ns| && forall i :: 0 <= i < |ms| ==> SameMember(ms[i], ns)
  {
    if |ms| == |ns| && forall i :: 0 <= i < |ms| ==> SameMember(ms[i], ns) {
      forall i | 0 <= i < |ms|
        ensures exists j :: 0 <= j < |ns| && ms[i].key == ns[j].key && SameUpToKeyOrder(ms[i].value, ns[j].value)
      {
        assert SameMember(ms[i], ns);
      }
    }
  }

  lemma AlignedMember(ms: seq<Member>, ns: seq<Member>, i: nat)
    requires SameKeys(ms, ns) && DistinctKeys(ns) && i < |ms|
    ensures SameMember(ms[i], ns) <==> SameUpToKeyOrder(ms[i].value, ns[i].value)
  {
    hide SameUpToKeyOrder;
  }

  lemma AlignedMembers(ms: seq<Member>, ns: seq<Member>)
    requires SameKeys(ms, ns) && DistinctKeys(ns)
    ensures SameUpToKeyOrder(Obj(ms), Obj(ns)) <==>
            forall i :: 0 <= i < |ms| ==> SameUpToKeyOrder(ms[i].value, ns[i].value)
  {
    hide SameUpToKeyOrder, SameMember, DistinctKeys;
    SameObjects(ms, ns);
    forall i | 0 <= i < |ms|
      ensures SameMember(ms[i], ns) <==> SameUpToKeyOrder(ms[i].value, ns[i].value)
    {
      AlignedMember(ms, ns, i);
    }
  }

  /** Elements that tie print alike. */
  ghost predicate TiesPrintAlike(entities: seq<Json>) {
    forall x, y :: x in entities && y in entities && KeyOf(Entities, x) == KeyOf(Entities, y) ==>
      SortKeys(x) == SortKeys(y)
  }

  /** Sorting does not depend on how the elements were listed, if elements that tie print alike. */
  lemma EntitiesIgnoreOrder(es: seq<Json>, fs: seq<Json>)
    requires Valid(Arr(es)) && Valid(Arr(fs)) && TiesPrintAlike(es)
    ensures SortKeys(Arr(Sort(es, SetLess(Entities)))) == SortKeys(Arr(Sort(fs, SetLess(Entities))))
       <==> multiset(Map(SortKeysFn(), es)) == multiset(Map(SortKeysFn(), fs))
  {
    hide SetLess, Sort, KeyOf, Valid;
    var less, us, vs := SetLess(Entities), Map(SortKeysFn(), es), Map(SortKeysFn(), fs);
    ValidItems(es);
    ValidItems(fs);
    SortedSet(Entities, es);
    SortedSet(Entities, fs);
    assert SortKeys(Arr(Sort(es, less))).items == Map(SortKeysFn(), Sort(es, less)) == Sort(us, less);
    assert SortKeys(Arr(Sort(fs, less))).items == Map(SortKeysFn(), Sort(fs, less)) == Sort(vs, less);
    SetLessIsOrder(Entities);
    if multiset(us) == multiset(vs) {
      SortedTies(es);
      SortPermuted(us, vs, less);
    }
    if Sort(us, less) == Sort(vs, less) {
      SortedAlike(us, vs, less);
    }
  }

  lemma SortedTies(es: seq<Json>)
    requires Valid(Arr(es)) && TiesPrintAlike(es)
    ensures TiesEqual(Map(SortKeysFn(), es), SetLess(Entities))
  {
    hide SetLess, KeyOf, SortKeys;
    var us := Map(SortKeysFn(), es);
    SetLessIsOrder(Entities);
    forall i, j | 0 <= i < |us| && 0 <= j < |us|
      ensures us[i] == us[j] || SetLess(Entities)(us[i], us[j]) || SetLess(Entities)(us[j], us[i])
    {
      KeyKept(Entities, es[i]);
      KeyKept(Entities, es[j]);
      assert es[i] in es && es[j] in es;
    }
  }

  /** A page checksum covers the snapshot, the index, the sequence and the entities as a multiset,
      and nothing else: not their order, nor the order of their members. */
  lemma PageTextIgnoresOrder(s: text, p: int, q: text, es: seq<Json>, t: text, o: int, r: text, fs: seq<Json>)
    requires -MAX_SAFE_INTEGER <= p <= MAX_SAFE_INTEGER && -MAX_SAFE_INTEGER <= o <= MAX_SAFE_INTEGER
    requires Valid(Arr(es)) && Valid(Arr(fs)) && TiesPrintAlike(es)
    ensures PageText(s, p, q, es) == PageText(t, o, r, fs) <==>
            s == t && p == o && q == r && multiset(Map(SortKeysFn(), es)) == multiset(Map(SortKeysFn(), fs))
    ensures multiset(es) == multiset(fs) ==> PageChecksum(s, p, q, es) == PageChecksum(s, p, q, fs)
  {
    hide SetLess, Sort, KeyOf, Page, CanonicalizeValue, SameUpToKeyOrder, Sha256Text, TiesPrintAlike;
    PageTextCovers(s, p, q, es, t, o, r, fs);
    PageTextCovers(s, p, q, es, s, p, q, fs);
    if multiset(es) == multiset(fs) {
      MapMultiset(SortKeysFn(), es, fs);
    }
  }

  /** Two pages have one text exactly when the scalars agree and the sorted elements print alike. */
  lemma PageTextIsSorted(s: text, p: int, q: text, es: seq<Json>, t: text, o: int, r: text, fs: seq<Json>)
    requires -MAX_SAFE_INTEGER <= p <= MAX_SAFE_INTEGER && -MAX_SAFE_INTEGER <= o <= MAX_SAFE_INTEGER
    requires Valid(Arr(es)) && Valid(Arr(fs))
    ensures PageText(s, p, q, es) == PageText(t, o, r, fs) <==>
            s == t && p == o && q == r
            && SortKeys(Arr(Sort(es, SetLess(Entities)))) == SortKeys(Arr(Sort(fs, SetLess(Entities))))
  {
    hide SetLess, Sort, KeyOf, Page, CanonicalizeValue, SameUpToKeyOrder, SortKeys, Valid;
    PageValid(s, p, q, es);
    PageValid(t, o, r, fs);
    CanonicalInjective(Page(s, p, q, es), Page(t, o, r, fs));
    PageFields(s, p, q, es, t, o, r, fs);
    SortSetStaysValid(es);
    SortSetStaysValid(fs);
    SameNormalForm(Arr(Sort(es, SetLess(Entities))), Arr(Sort(fs, SetLess(Entities))));
  }

  lemma PageTextCovers(s: text, p: int, q: text, es: seq<Json>, t: text, o: int, r: text, fs: seq<Json>)
    requires -MAX_SAFE_INTEGER <= p <= MAX_SAFE_INTEGER && -MAX_SAFE_INTEGER <= o <= MAX_SAFE_INTEGER
    requires Valid(Arr(es)) && Valid(Arr(fs)) && TiesPrintAlike(es)
    ensures PageText(s, p, q, es) == PageText(t, o, r, fs) <==>
            s == t && p == o && q == r && multiset(Map(SortKeysFn(), es)) == multiset(Map(SortKeysFn(), fs))
  {
    hide SetLess, Sort, KeyOf, PageText, TiesPrintAlike, SortKeys, Valid, Map;
    PageTextIsSorted(s, p, q, es, t, o, r, fs);
    EntitiesIgnoreOrder(es, fs);
  }

  /** The page text is the same for every order of the entities. */
  ghost predicate PageOrderBlind(s: text, p: int, q: text, es: seq<Json>) {
    forall fs: seq<Json> :: multiset(fs) == multiset(es) ==> PageText(s, p, q, fs) == PageText(s, p, q, es)
  }

  /** Exchanging two tied entities that print differently changes the sorted page. */
  lemma TieShows(es: seq<Json>, i: nat, j: nat)
    requires Valid(Arr(es)) && i < j < |es|
    requires KeyOf(Entities, es[i]) == KeyOf(Entities, es[j]) && SortKeys(es[i]) != SortKeys(es[j])
    ensures var fs := Exchange(es, i, j);
      && Valid(Arr(fs)) && multiset(fs) == multiset(es)
      && SortKeys(Arr(Sort(es, SetLess(Entities)))) != SortKeys(Arr(Sort(fs, SetLess(Entities))))
  {
    hide SetLess, Sort, KeyOf, Valid, SortKeys, Exchange;
    var fs := Exchange(es, i, j);
    ExchangePermutes(es, i, j);
    PermutedIsValid(es, fs);
    SortedPage(es);
    SortedPage(fs);
    ExchangedPrints(es, i, j);
    DifferenceShows(Entities, Map(SortKeysFn(), es), Map(SortKeysFn(), fs), i);
  }

  lemma ExchangedPrints(es: seq<Json>, i: nat, j: nat)
    requires Valid(Arr(es)) && i < j < |es| && KeyOf(Entities, es[i]) == KeyOf(Entities, es[j])
    ensures var us, vs := Map(SortKeysFn(), es), Map(SortKeysFn(), Exchange(es, i, j));
      && us[..i] == vs[..i] && us[i] == SortKeys(es[i]) && vs[i] == SortKeys(es[j])
      && KeyOf(Entities, us[i]) == KeyOf(Entities, vs[i])
  {
    hide KeyOf, Valid, SortKeys;
    ValidItems(es);
    KeyKept(Entities, es[i]);
    KeyKept(Entities, es[j]);
  }

  lemma SortedPage(es: seq<Json>)
    requires Valid(Arr(es))
    ensures SortKeys(Arr(Sort(es, SetLess(Entities)))) == Arr(Sort(Map(SortKeysFn(), es), SetLess(Entities)))
  {
    hide SetLess, Sort, Valid, Map;
    ValidItems(es);
    SortedSet(Entities, es);
    SortedItems(Sort(es, SetLess(Entities)));
  }

  lemma SortedItems(xs: seq<Json>)
    ensures SortKeys(Arr(xs)) == Arr(Map(SortKeysFn(), xs))
  {
  }

  lemma PermutedIsValid(xs: seq<Json>, ys: seq<Json>)
    requires Valid(Arr(xs)) && multiset(ys) == multiset(xs)
    ensures Valid(Arr(ys))
  {
    forall i | 0 <= i < |ys|
      ensures Valid(ys[i])
    {
      assert ys[i] in multiset(xs);
    }
  }

  /** The checksum of a page does not see the order of its entities exactly when entities that tie print
      alike. */
  lemma PageOrderBlindIff(s: text, p: int, q: text, es: seq<Json>)
    requires -MAX_SAFE_INTEGER <= p <= MAX_SAFE_INTEGER && Valid(Arr(es))
    ensures PageOrderBlind(s, p, q, es) <==> TiesPrintAlike(es)
  {
    hide SetLess, Sort, KeyOf, PageText, SortKeys, Valid, Exchange;
    if TiesPrintAlike(es) {
      forall fs: seq<Json> | multiset(fs) == multiset(es)
        ensures PageText(s, p, q, fs) == PageText(s, p, q, es)
      {
        PermutedIsValid(es, fs);
        MapMultiset(SortKeysFn(), es, fs);
        PageTextCovers(s, p, q, es, s, p, q, fs);
      }
    } else {
      var x, y :| x in es && y in es && KeyOf(Entities, x) == KeyOf(Entities, y) && SortKeys(x) != SortKeys(y);
      var i := IndexOf(es, x);
      var j := IndexOf(es, y);
      var lo, hi := if i < j then i else j, if i < j then j else i;
      TieShows(es, lo, hi);
      PageTextIsSorted(s, p, q, es, s, p, q, Exchange(es, lo, hi));
      assert PageText(s, p, q, Exchange(es, lo, hi)) != PageText(s, p, q, es);
    }
  }

  lemma IndexOf(xs: seq<Json>, x: Json) returns (i: nat)
    requires x in xs
    ensures i < |xs| && xs[i] == x
  {
    i :| i < |xs| && xs[i] == x;
  }

  lemma SortSetStaysValid(es: seq<Json>)
    requires Valid(Arr(es))
    ensures Valid(Arr(Sort(es, SetLess(Entities))))
  {
    hide SetLess, Sort;
    forall i | 0 <= i < |es|
      ensures Valid(Sort(es, SetLess(Entities))[i])
    {
      SortMember(es, SetLess(Entities), Sort(es, SetLess(Entities))[i]);
    }
  }
}
