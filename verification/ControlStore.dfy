/** The control store of backend/internal/controlprofile, runtimecontrol and controlsettings: profile
    versions, endpoints, service bindings and the runtime state of a workspace. A statement or a
    transaction is one function from store to store; keys, foreign keys and CHECK clauses are enforced
    as the schema enforces them. A secret is the text that is encrypted, and "" stands for none. */
module ControlStore {
  import opened Wrappers

  // ---------------------------------------------------------------- rows

  datatype Kind = DataStore | ObjectS3 | LlmChat | LlmTranscription | OtherKind(name: string)
  datatype Mode = Default | Custom | Disabled | ReuseChat | OtherMode(name: string)
  datatype Source = NoSource | SystemSource | CustomSource | OtherSource(name: string)
  datatype VersionState = Draft | Verified | Retired

  /** `config_json`: text that is not JSON, or compact JSON text with or without a usable `model`. */
  datatype Config = Malformed | Json(text: string, model: Option<string>)

  datatype FamilyKey = FamilyKey(ws: string, kind: Kind, id: string)
  datatype VersionKey = VersionKey(ws: string, kind: Kind, id: string)
  datatype SystemKey = SystemKey(kind: Kind, id: string)
  datatype EndpointKey = EndpointKey(ws: string, kind: Kind, source: Source, id: string)
  datatype BindingKey = BindingKey(ws: string, kind: Kind)

  datatype Version = Version(familyId: string, number: nat, provider: string, state: VersionState, config: Config,
                             secret: string)

  /** A binding row; `NoSource` and the empty endpoint stand for NULL. */
  datatype Binding = Binding(mode: Mode, source: Source, endpointId: string, settings: string, revision: int)

  datatype RuntimeMode = Active | Draining | Migrating | Activating | Blocked

  datatype Runtime = Runtime(mode: RuntimeMode, epoch: int, bindingRevision: int, operation: Option<string>)

  datatype Store = Store(
    families: set<FamilyKey>,
    versions: map<VersionKey, Version>,
    systemVersions: map<SystemKey, Version>,
    endpoints: map<EndpointKey, string>,
    bindings: map<BindingKey, Binding>,
    runtime: map<string, Runtime>)

  const EMPTY: Store := Store({}, map[], map[], map[], map[], map[])

  datatype Err = Ok | Invalid | DatabaseError | NoRows | NotVerified | CasConflict | StateConflict

  /** `validKind` */
  predicate ValidKind(kind: Kind) {
    !kind.OtherKind?
  }

  /** `validBindingMode` */
  predicate ValidBindingMode(kind: Kind, mode: Mode) {
    match kind
    case DataStore => mode == Default || mode == Custom
    case ObjectS3 => mode == Default || mode == Custom
    case LlmChat => mode == Default || mode == Custom || mode == Disabled
    case LlmTranscription => mode == Default || mode == Custom || mode == ReuseChat || mode == Disabled
    case OtherKind(_) => false
  }

  /** The CHECK clauses of `workspace_service_bindings`. */
  predicate BindingCheck(kind: Kind, mode: Mode, source: Source) {
    && (match kind
        case DataStore => (mode == Default || mode == Custom) && source != NoSource
        case ObjectS3 => (mode == Default || mode == Custom) && source != NoSource
        case LlmChat => ((mode == Default || mode == Custom) && source != NoSource)
                        || (mode == Disabled && source == NoSource)
        case LlmTranscription => ((mode == Default || mode == Custom) && source != NoSource)
                                 || ((mode == ReuseChat || mode == Disabled) && source == NoSource)
        case OtherKind(_) => false)
    && (source == NoSource || (mode == Default && source == SystemSource) || (mode == Custom && source == CustomSource))
  }

  /** The foreign key of a binding, which a NULL source or endpoint satisfies. */
  predicate BindingRefers(s: Store, ws: string, kind: Kind, source: Source, endpointId: string) {
    source == NoSource || EndpointKey(ws, kind, source, endpointId) in s.endpoints
  }

  // ---------------------------------------------------------------- versions

  predicate InFamily(s: Store, ws: string, kind: Kind, familyId: string, k: VersionKey) {
    k in s.versions && k.ws == ws && k.kind == kind && s.versions[k].familyId == familyId
  }

  /** `COALESCE(MAX(version),0)+1` over the versions of a family. */
  predicate IsNext(s: Store, ws: string, kind: Kind, familyId: string, n: nat) {
    && n >= 1
    && (forall k :: k in s.versions && InFamily(s, ws, kind, familyId, k) ==> s.versions[k].number < n)
    && (n > 1 ==>
          exists k :: k in s.versions && InFamily(s, ws, kind, familyId, k) && s.versions[k].number == n - 1)
  }

  /** The largest number below which all versions of a set lie. */
  lemma {:induction false} NumberBound(s: Store, keys: set<VersionKey>) returns (n: nat)
    requires keys <= s.versions.Keys
    ensures forall k :: k in keys ==> s.versions[k].number < n
    ensures n > 1 ==> exists k :: k in keys && s.versions[k].number == n - 1
    ensures n >= 1
    decreases |keys|
  {
    if keys == {} {
      n := 1;
    } else {
      var x :| x in keys;
      n := NumberBound(s, keys - {x});
      if s.versions[x].number >= n {
        n := s.versions[x].number + 1;
      }
    }
  }

  lemma NextExists(s: Store, ws: string, kind: Kind, familyId: string)
    ensures exists n :: IsNext(s, ws, kind, familyId, n)
  {
    var keys := set k | k in s.versions && InFamily(s, ws, kind, familyId, k);
    var n := NumberBound(s, keys);
    if n > 1 {
      var k :| k in keys && s.versions[k].number == n - 1;
    }
    assert IsNext(s, ws, kind, familyId, n);
  }

  ghost function NextNumber(s: Store, ws: string, kind: Kind, familyId: string): (n: nat)
    ensures IsNext(s, ws, kind, familyId, n)
  {
    NextExists(s, ws, kind, familyId);
    var n :| IsNext(s, ws, kind, familyId, n);
    n
  }

  datatype VersionInput = VersionInput(id: string, familyId: string, ws: string, kind: Kind, provider: string,
                                       config: Config, secret: string, preserveFrom: string, createdBy: string)

  predicate ValidVersionInput(v: VersionInput) {
    && v.id != "" && v.familyId != "" && v.ws != "" && v.provider != "" && v.createdBy != "" && ValidKind(v.kind)
    && (v.secret == "" || v.preserveFrom == "") && v.config.Json?
  }

  /** The secret of the new version: its own, or that of the version it preserves. A version without
      a secret has no key to scan, which is an error of the database. */
  function SecretFor(s: Store, v: VersionInput): (string, Err) {
    var from := VersionKey(v.ws, v.kind, v.preserveFrom);
    if v.preserveFrom == "" then (v.secret, Ok)
    else if from !in s.versions then ("", NoRows)
    else if s.versions[from].secret == "" then ("", DatabaseError)
    else (s.versions[from].secret, Ok)
  }

  predicate CanCreateVersion(s: Store, v: VersionInput) {
    && ValidVersionInput(v) && SecretFor(s, v).1 == Ok
    && VersionKey(v.ws, v.kind, v.id) !in s.versions && FamilyKey(v.ws, v.kind, v.familyId) in s.families
  }

  /** `CreateVersion` */
  ghost function CreateVersionTx(s: Store, v: VersionInput): (Store, Err) {
    if !ValidVersionInput(v) then (s, Invalid)
    else if SecretFor(s, v).1 != Ok then (s, SecretFor(s, v).1)
    else if !CanCreateVersion(s, v) then (s, DatabaseError)
    else
      var number := NextNumber(s, v.ws, v.kind, v.familyId);
      var row := Version(v.familyId, number, v.provider, Draft, v.config, SecretFor(s, v).0);
      (s.(versions := s.versions[VersionKey(v.ws, v.kind, v.id) := row]), Ok)
  }

  /** `MarkVerified` */
  function VerifyVersion(s: Store, k: VersionKey): (Store, Err) {
    if k in s.versions && s.versions[k].state == Draft then
      (s.(versions := s.versions[k := s.versions[k].(state := Verified)]), Ok)
    else (s, StateConflict)
  }

  /** `RetireWorkspaceVersion` */
  function Retire(s: Store, k: VersionKey): (Store, Err) {
    if k in s.versions && s.versions[k].state != Retired then
      (s.(versions := s.versions[k := s.versions[k].(state := Retired)]), Ok)
    else (s, StateConflict)
  }

  // ---------------------------------------------------------------- system versions

  datatype SystemSpec = SystemSpec(candidateId: string, familyId: string, kind: Kind, name: string, provider: string,
                                   config: Config, secret: string, mode: Mode)

  predicate ValidCandidate(c: SystemSpec) {
    c.candidateId != "" && c.familyId != "" && c.name != "" && c.provider != "" && ValidKind(c.kind) && c.config.Json?
  }

  predicate InSystemFamily(s: Store, kind: Kind, familyId: string, k: SystemKey) {
    k in s.systemVersions && k.kind == kind && s.systemVersions[k].familyId == familyId
  }

  /** `ORDER BY version DESC LIMIT 1` over the versions of a family. */
  predicate IsLatest(s: Store, kind: Kind, familyId: string, k: SystemKey) {
    && InSystemFamily(s, kind, familyId, k)
    && forall l :: l in s.systemVersions && InSystemFamily(s, kind, familyId, l) ==>
         s.systemVersions[l].number <= s.systemVersions[k].number
  }

  predicate HasSystemVersion(s: Store, kind: Kind, familyId: string) {
    exists k :: k in s.systemVersions && InSystemFamily(s, kind, familyId, k)
  }

  /** The number of a version that none of a set exceeds. */
  lemma {:induction false} HighestNumber(s: Store, keys: set<SystemKey>) returns (k: SystemKey)
    requires keys <= s.systemVersions.Keys && keys != {}
    ensures k in keys && forall l :: l in keys ==> s.systemVersions[l].number <= s.systemVersions[k].number
    decreases |keys|
  {
    k :| k in keys;
    if keys != {k} {
      var other := HighestNumber(s, keys - {k});
      if s.systemVersions[other].number > s.systemVersions[k].number {
        k := other;
      }
    }
  }

  lemma LatestExists(s: Store, kind: Kind, familyId: string)
    requires HasSystemVersion(s, kind, familyId)
    ensures exists k :: k in s.systemVersions && IsLatest(s, kind, familyId, k)
  {
    var keys := set k | k in s.systemVersions && InSystemFamily(s, kind, familyId, k);
    var some :| some in s.systemVersions && InSystemFamily(s, kind, familyId, some);
    assert some in keys;
    var k := HighestNumber(s, keys);
    assert IsLatest(s, kind, familyId, k);
  }

  ghost function Latest(s: Store, kind: Kind, familyId: string): (k: SystemKey)
    requires HasSystemVersion(s, kind, familyId)
    ensures IsLatest(s, kind, familyId, k)
  {
    LatestExists(s, kind, familyId);
    var k :| k in s.systemVersions && IsLatest(s, kind, familyId, k);
    k
  }

  /** UNIQUE (kind, family_id, version) on the system versions. */
  predicate UniqueSystemNumbers(s: Store) {
    forall k, l :: k in s.systemVersions && l in s.systemVersions && SameSystemNumber(s, k, l) ==> k == l
  }

  predicate SameSystemNumber(s: Store, k: SystemKey, l: SystemKey)
    requires k in s.systemVersions && l in s.systemVersions
  {
    && k.kind == l.kind && s.systemVersions[k].familyId == s.systemVersions[l].familyId
    && s.systemVersions[k].number == s.systemVersions[l].number
  }

  lemma LatestIsUnique(s: Store, kind: Kind, familyId: string, k: SystemKey)
    requires UniqueSystemNumbers(s) && IsLatest(s, kind, familyId, k)
    ensures HasSystemVersion(s, kind, familyId) && Latest(s, kind, familyId) == k
  {
    assert InSystemFamily(s, kind, familyId, k);
    var l := Latest(s, kind, familyId);
    assert InSystemFamily(s, kind, familyId, l);
    assert SameSystemNumber(s, k, l);
  }

  /** The version says what the specification asks for. */
  predicate Meets(v: Version, c: SystemSpec) {
    v.provider == c.provider && v.config == c.config && v.secret == c.secret
  }

  /** The INSERT of `ReconcileSystemCandidate`. */
  function AddCandidate(s: Store, c: SystemSpec, number: nat): (Store, Option<SystemKey>, Err) {
    var k := SystemKey(c.kind, c.candidateId);
    if k in s.systemVersions then (s, None, DatabaseError)
    else
      var row := Version(c.familyId, number, c.provider, Draft, c.config, c.secret);
      (s.(systemVersions := s.systemVersions[k := row]), Some(k), Ok)
  }

  /** `ReconcileSystemCandidate`: the latest version of the family if it says the same, and a new draft
      otherwise. */
  ghost function Candidate(s: Store, c: SystemSpec): (r: (Store, Option<SystemKey>, Err))
    ensures r.2 == Ok ==> r.1.Some? && r.1.value in r.0.systemVersions
  {
    if !ValidCandidate(c) then (s, None, Invalid)
    else if !HasSystemVersion(s, c.kind, c.familyId) then AddCandidate(s, c, 1)
    else
      var latest := Latest(s, c.kind, c.familyId);
      if Meets(s.systemVersions[latest], c) then (s, Some(latest), Ok)
      else AddCandidate(s, c, s.systemVersions[latest].number + 1)
  }

  lemma AddKeepsUnique(s: Store, c: SystemSpec, number: nat)
    requires UniqueSystemNumbers(s)
    requires forall l :: l in s.systemVersions && InSystemFamily(s, c.kind, c.familyId, l) ==>
               s.systemVersions[l].number < number
    ensures UniqueSystemNumbers(AddCandidate(s, c, number).0)
  {
    var t := AddCandidate(s, c, number).0;
    forall k, l | k in t.systemVersions && l in t.systemVersions && SameSystemNumber(t, k, l)
      ensures k == l
    {
      if k in s.systemVersions && l in s.systemVersions {
        assert SameSystemNumber(s, k, l);
      } else if k in s.systemVersions {
        assert l == SystemKey(c.kind, c.candidateId) && InSystemFamily(s, c.kind, c.familyId, k);
      } else if l in s.systemVersions {
        assert k == SystemKey(c.kind, c.candidateId) && InSystemFamily(s, c.kind, c.familyId, l);
      }
    }
  }

  lemma CandidateKeepsUnique(s: Store, c: SystemSpec)
    requires UniqueSystemNumbers(s)
    ensures UniqueSystemNumbers(Candidate(s, c).0)
  {
    hide UniqueSystemNumbers, AddCandidate, InSystemFamily, ValidCandidate, Meets;
    if !HasSystemVersion(s, c.kind, c.familyId) {
      AddKeepsUnique(s, c, 1);
    } else {
      AddKeepsUnique(s, c, s.systemVersions[Latest(s, c.kind, c.familyId)].number + 1);
    }
  }

  /** `MarkSystemVerified` */
  function VerifySystemVersion(s: Store, k: SystemKey): (Store, Err) {
    if k in s.systemVersions && s.systemVersions[k].state == Draft then
      (s.(systemVersions := s.systemVersions[k := s.systemVersions[k].(state := Verified)]), Ok)
    else (s, StateConflict)
  }

  lemma VerifyKeepsUnique(s: Store, v: SystemKey)
    requires UniqueSystemNumbers(s)
    ensures UniqueSystemNumbers(VerifySystemVersion(s, v).0)
  {
    var t := VerifySystemVersion(s, v).0;
    forall k, l | k in t.systemVersions && l in t.systemVersions && SameSystemNumber(t, k, l)
      ensures k == l
    {
      assert SameSystemNumber(s, k, l);
    }
  }

  // ---------------------------------------------------------------- families

  /** `EnsureFamily`: the kind is not part of the SELECT, and where families of several kinds share the
      name the row returned is taken to be of another kind. */
  function EnsureFamily(s: Store, k: FamilyKey, name: string, actor: string): (Store, Err) {
    if exists f :: f in s.families && f.ws == k.ws && f.id == k.id && f.kind == k.kind then
      if exists f :: f in s.families && f.ws == k.ws && f.id == k.id && f.kind != k.kind then (s, StateConflict)
      else (s, Ok)
    else if exists f :: f in s.families && f.ws == k.ws && f.id == k.id then (s, StateConflict)
    else if k.ws == "" || k.id == "" || name == "" || actor == "" || !ValidKind(k.kind) then (s, Invalid)
    else (s.(families := s.families + {k}), Ok)
  }

  // ---------------------------------------------------------------- endpoints

  /** The name of a kind in the tables. */
  function KindName(kind: Kind): string {
    match kind
    case DataStore => "data_store"
    case ObjectS3 => "object_s3"
    case LlmChat => "llm_chat"
    case LlmTranscription => "llm_transcription"
    case OtherKind(name) => name
  }

  function CustomName(versionId: string): string {
    "custom-" + versionId
  }

  function SystemName(kind: Kind, versionId: string): string {
    "system-" + KindName(kind) + "-" + versionId
  }

  /** The version an endpoint stands for: the workspace's own, or the system's. */
  function VersionOf(s: Store, k: EndpointKey, versionId: string): Option<Version> {
    var own, system := VersionKey(k.ws, k.kind, versionId), SystemKey(k.kind, versionId);
    if k.source == CustomSource && own in s.versions then Some(s.versions[own])
    else if k.source == SystemSource && system in s.systemVersions then Some(s.systemVersions[system])
    else None
  }

  /** The SELECT of `CreateWorkspaceEndpoint` and `CreateSystemEndpoint`. */
  function CheckEndpoint(s: Store, k: EndpointKey, versionId: string): Err {
    match VersionOf(s, k, versionId)
    case None => NoRows
    case Some(v) => if v.state == Verified then Ok else NotVerified
  }

  /** The INSERT behind it: primary key, CHECK and foreign key, but no look at the state. */
  function InsertEndpoint(s: Store, k: EndpointKey, versionId: string): (Store, Err) {
    if k in s.endpoints || !ValidKind(k.kind) || VersionOf(s, k, versionId).None? then (s, DatabaseError)
    else (s.(endpoints := s.endpoints[k := versionId]), Ok)
  }

  /** Both, with nothing in between. */
  function CreateEndpoint(s: Store, k: EndpointKey, versionId: string): (Store, Err) {
    var err := CheckEndpoint(s, k, versionId);
    if err != Ok then (s, err) else InsertEndpoint(s, k, versionId)
  }

  // ---------------------------------------------------------------- bindings

  datatype BindingInput = BindingInput(ws: string, kind: Kind, mode: Mode, source: Source, endpointId: string,
                                       settings: string, expectedRevision: int, expectedRuntimeRevision: int,
                                       actor: string)

  /** What `SetBinding` refuses before it opens a transaction. */
  predicate ValidBindingInput(b: BindingInput) {
    && b.ws != "" && b.actor != "" && b.expectedRuntimeRevision > 0
    && ValidKind(b.kind) && ValidBindingMode(b.kind, b.mode)
    && if b.mode == Disabled || b.mode == ReuseChat then b.source == NoSource && b.endpointId == ""
       else b.endpointId != "" && (b.source == SystemSource || b.source == CustomSource)
            && (b.mode == Default) == (b.source == SystemSource)
  }

  function SettingsOf(b: BindingInput): string {
    if b.settings == "" then "{}" else b.settings
  }

  /** The INSERT or the compare-and-swap of the binding row. */
  function WriteBinding(s: Store, b: BindingInput): (Store, Err) {
    var k := BindingKey(b.ws, b.kind);
    var allowed := BindingCheck(b.kind, b.mode, b.source) && BindingRefers(s, b.ws, b.kind, b.source, b.endpointId);
    if b.expectedRevision == 0 then
      if k in s.bindings || !allowed then (s, DatabaseError)
      else (s.(bindings := s.bindings[k := Binding(b.mode, b.source, b.endpointId, SettingsOf(b), 1)]), Ok)
    else if k !in s.bindings || s.bindings[k].revision != b.expectedRevision then (s, CasConflict)
    else if !allowed then (s, DatabaseError)
    else
      var row := Binding(b.mode, b.source, b.endpointId, SettingsOf(b), s.bindings[k].revision + 1);
      (s.(bindings := s.bindings[k := row]), Ok)
  }

  /** The compare-and-swap of the runtime row. */
  function RaiseRuntime(s: Store, ws: string, expected: int): (Store, Err) {
    if ws in s.runtime && s.runtime[ws].mode == Active && s.runtime[ws].bindingRevision == expected
       && s.runtime[ws].operation == None then
      (s.(runtime := s.runtime[ws := s.runtime[ws].(bindingRevision := expected + 1)]), Ok)
    else (s, CasConflict)
  }

  /** `SetBinding`: both writes, or neither. */
  function SetBindingTx(s: Store, b: BindingInput): (Store, Err) {
    if !ValidBindingInput(b) then (s, Invalid)
    else
      var (written, err) := WriteBinding(s, b);
      if err != Ok then (s, err)
      else
        var (raised, raiseErr) := RaiseRuntime(written, b.ws, b.expectedRuntimeRevision);
        if raiseErr != Ok then (s, raiseErr) else (raised, Ok)
  }

  // ---------------------------------------------------------------- storage operations

  /** `BeginOperation` */
  function BeginOperation(s: Store, ws: string, expected: int, operation: string): (Store, Err) {
    if ws in s.runtime && s.runtime[ws].mode == Active && s.runtime[ws].bindingRevision == expected
       && s.runtime[ws].operation == None then
      var row := s.runtime[ws].(mode := Draining, epoch := s.runtime[ws].epoch + 1, operation := Some(operation));
      (s.(runtime := s.runtime[ws := row]), Ok)
    else (s, CasConflict)
  }

  predicate ValidTransition(from: RuntimeMode, to: RuntimeMode) {
    (from == Draining && to == Migrating) || (from == Migrating && to == Activating)
  }

  /** `Transition` */
  function Transition(s: Store, ws: string, operation: string, epoch: int, from: RuntimeMode, to: RuntimeMode)
    : (Store, Err)
  {
    if !ValidTransition(from, to) then (s, Invalid)
    else if ws in s.runtime && s.runtime[ws].mode == from && s.runtime[ws].epoch == epoch
            && s.runtime[ws].operation == Some(operation) then
      (s.(runtime := s.runtime[ws := s.runtime[ws].(mode := to)]), Ok)
    else (s, CasConflict)
  }

  /** `AdvanceEpoch` */
  function AdvanceEpoch(s: Store, ws: string, epoch: int, expected: int): (Store, Err) {
    if ws in s.runtime && s.runtime[ws].mode == Active && s.runtime[ws].epoch == epoch
       && s.runtime[ws].bindingRevision == expected && s.runtime[ws].operation == None then
      (s.(runtime := s.runtime[ws := s.runtime[ws].(epoch := epoch + 1)]), Ok)
    else (s, CasConflict)
  }

  datatype Activation = Activation(ws: string, operation: string, epoch: int, expectedRevision: int,
                                   expectedRuntimeRevision: int, kind: Kind, mode: Mode, source: Source,
                                   endpointId: string)

  /** `ActivateBinding`: the binding of a finished storage operation; both writes, or neither. */
  function ActivateBinding(s: Store, a: Activation): (Store, Err) {
    var k := BindingKey(a.ws, a.kind);
    var plain := a.mode == Disabled || a.mode == ReuseChat;
    var source, endpoint := if plain then NoSource else a.source, if plain then "" else a.endpointId;
    if k !in s.bindings || s.bindings[k].revision != a.expectedRevision then (s, CasConflict)
    else if !BindingCheck(a.kind, a.mode, source) || !BindingRefers(s, a.ws, a.kind, source, endpoint) then
      (s, DatabaseError)
    else if !(a.ws in s.runtime && s.runtime[a.ws].mode == Activating && s.runtime[a.ws].epoch == a.epoch
              && s.runtime[a.ws].bindingRevision == a.expectedRuntimeRevision
              && s.runtime[a.ws].operation == Some(a.operation)) then (s, CasConflict)
    else
      var (was, before) := (s.bindings[k], s.runtime[a.ws]);
      var row := was.(mode := a.mode, source := source, endpointId := endpoint, revision := was.revision + 1);
      var state := before.(mode := Active, bindingRevision := before.bindingRevision + 1, operation := None);
      (s.(bindings := s.bindings[k := row], runtime := s.runtime[a.ws := state]), Ok)
  }

  // ---------------------------------------------------------------- provisioning

  datatype DefaultBinding = DefaultBinding(kind: Kind, mode: Mode, endpointId: string, versionId: string)

  /** `validDefaultMode` */
  predicate ValidDefaultMode(kind: Kind, mode: Mode) {
    match kind
    case DataStore => mode == Default
    case ObjectS3 => mode == Default
    case LlmChat => mode == Default || mode == Disabled
    case LlmTranscription => mode == Default || mode == Disabled
    case OtherKind(_) => false
  }

  /** Four complete defaults of different kinds. */
  predicate ValidDefaults(items: seq<DefaultBinding>) {
    && |items| == 4
    && (forall i :: 0 <= i < 4 ==>
          items[i].endpointId != "" && items[i].versionId != "" && ValidDefaultMode(items[i].kind, items[i].mode))
    && (forall i, j :: 0 <= i < j < 4 ==> items[i].kind != items[j].kind)
  }

  /** The default that `ReconcileSystemDefaults` hands out for a version. */
  function DefaultOf(c: SystemSpec, k: SystemKey): DefaultBinding {
    DefaultBinding(c.kind, c.mode, SystemName(c.kind, k.id), k.id)
  }

  /** The result after the turns whose defaults are `done`. */
  function After(done: seq<DefaultBinding>, r: (Store, seq<DefaultBinding>, Err)): (Store, seq<DefaultBinding>, Err) {
    if r.2 != Ok then (r.0, [], r.2) else (r.0, done + r.1, Ok)
  }

  /** One turn of the loop: the candidate, marked verified if it is a draft. */
  ghost function ReconcileOne(s: Store, c: SystemSpec): (r: (Store, Option<SystemKey>, Err))
    ensures r.2 == Ok ==> r.1.Some? && r.1.value in r.0.systemVersions
  {
    var (t, k, err) := Candidate(s, c);
    if err != Ok then (t, None, err) else (VerifySystemVersion(t, k.value).0, k, Ok)
  }

  lemma OneKeepsUnique(s: Store, c: SystemSpec)
    requires UniqueSystemNumbers(s)
    ensures UniqueSystemNumbers(ReconcileOne(s, c).0)
  {
    hide UniqueSystemNumbers, Candidate, VerifySystemVersion;
    CandidateKeepsUnique(s, c);
    if Candidate(s, c).2 == Ok {
      VerifyKeepsUnique(Candidate(s, c).0, Candidate(s, c).1.value);
    }
  }

  /** The loop of `ReconcileSystemDefaults`: what an earlier turn stored stays when a later one fails. */
  ghost function ReconcileFrom(s: Store, specs: seq<SystemSpec>, seen: set<Kind>)
    : (r: (Store, seq<DefaultBinding>, Err))
    ensures r.2 != Ok ==> r.1 == []
    decreases |specs|
  {
    if |specs| == 0 then (s, [], Ok)
    else
      var c := specs[0];
      if c.kind in seen || !ValidDefaultMode(c.kind, c.mode) then (s, [], Invalid)
      else
        var (t, k, err) := ReconcileOne(s, c);
        if err != Ok then (t, [], err)
        else After([DefaultOf(c, k.value)], ReconcileFrom(t, specs[1..], seen + {c.kind}))
  }

  /** `ReconcileSystemDefaults` */
  ghost function Reconcile(s: Store, specs: seq<SystemSpec>): (Store, seq<DefaultBinding>, Err) {
    if |specs| != 4 then (s, [], Invalid) else ReconcileFrom(s, specs, {})
  }

  /** The endpoint and the binding of one default; `None` for a violated foreign key. */
  function ProvisionItem(s: Store, ws: string, item: DefaultBinding): Option<Store> {
    var e := EndpointKey(ws, item.kind, SystemSource, item.endpointId);
    var b := BindingKey(ws, item.kind);
    if e !in s.endpoints && SystemKey(item.kind, item.versionId) !in s.systemVersions then None
    else
      var source, endpoint := if item.mode == Default then SystemSource else NoSource,
                              if item.mode == Default then item.endpointId else "";
      Some(s.(endpoints := if e in s.endpoints then s.endpoints else s.endpoints[e := item.versionId],
              bindings := if b in s.bindings then s.bindings
                          else s.bindings[b := Binding(item.mode, source, endpoint, "{}", 1)]))
  }

  function ProvisionItems(s: Store, ws: string, items: seq<DefaultBinding>): Option<Store>
    decreases |items|
  {
    if |items| == 0 then Some(s)
    else match ProvisionItem(s, ws, items[0])
         case None => None
         case Some(t) => ProvisionItems(t, ws, items[1..])
  }

  /** `ProvisionWorkspaceIdentity`: the runtime row, then the defaults, or nothing. */
  function Provision(s: Store, ws: string, items: seq<DefaultBinding>): (Store, Err) {
    if ws == "" || !ValidDefaults(items) then (s, Invalid)
    else
      var begun := if ws in s.runtime then s else s.(runtime := s.runtime[ws := Runtime(Active, 1, 1, None)]);
      match ProvisionItems(begun, ws, items)
      case None => (s, DatabaseError)
      case Some(t) => (t, Ok)
  }

  // ---------------------------------------------------------------- the repository

  class Repository {
    var families: set<FamilyKey>
    var versions: map<VersionKey, Version>
    var systemVersions: map<SystemKey, Version>
    var endpoints: map<EndpointKey, string>
    var bindings: map<BindingKey, Binding>
    var runtime: map<string, Runtime>

    constructor ()
      ensures Contents() == EMPTY
    {
      families, versions, systemVersions, endpoints, bindings, runtime := {}, map[], map[], map[], map[], map[];
    }

    function Contents(): Store
      reads this
    {
      Store(families, versions, systemVersions, endpoints, bindings, runtime)
    }

    method CreateWorkspaceEndpoint(ws: string, endpointId: string, kind: Kind, versionId: string) returns (err: Err)
      modifies this`endpoints
      ensures (Contents(), err)
        == CreateEndpoint(old(Contents()), EndpointKey(ws, kind, CustomSource, endpointId), versionId)
    {
      var key := VersionKey(ws, kind, versionId);
      if key !in versions {
        return NoRows;
      }
      if versions[key].state != Verified {
        return NotVerified;
      }
      err := Insert(EndpointKey(ws, kind, CustomSource, endpointId), versionId);
    }

    method CreateSystemEndpoint(ws: string, endpointId: string, kind: Kind, versionId: string) returns (err: Err)
      modifies this`endpoints
      ensures (Contents(), err)
        == CreateEndpoint(old(Contents()), EndpointKey(ws, kind, SystemSource, endpointId), versionId)
    {
      var key := SystemKey(kind, versionId);
      if key !in systemVersions {
        return NoRows;
      }
      if systemVersions[key].state != Verified {
        return NotVerified;
      }
      err := Insert(EndpointKey(ws, kind, SystemSource, endpointId), versionId);
    }

    /** INSERT INTO workspace_service_endpoints */
    method Insert(k: EndpointKey, versionId: string) returns (err: Err)
      modifies this`endpoints
      ensures (Contents(), err) == InsertEndpoint(old(Contents()), k, versionId)
    {
      if k in endpoints || !ValidKind(k.kind) || VersionOf(Contents(), k, versionId).None? {
        return DatabaseError;
      }
      endpoints := endpoints[k := versionId];
      return Ok;
    }

    /** The two writes of the transaction happen one after the other, and a failure undoes the first. */
    method SetBinding(input: BindingInput) returns (binding: Option<Binding>, err: Err)
      modifies this`bindings, this`runtime
      ensures (Contents(), err) == SetBindingTx(old(Contents()), input)
      ensures binding == if err == Ok then Some(bindings[BindingKey(input.ws, input.kind)]) else None
    {
      if !ValidBindingInput(input) {
        return None, Invalid;
      }
      var before := bindings;
      var k := BindingKey(input.ws, input.kind);
      var e := EndpointKey(input.ws, input.kind, input.source, input.endpointId);
      var allowed := BindingCheck(input.kind, input.mode, input.source) && (input.source == NoSource || e in endpoints);
      if input.expectedRevision == 0 {
        if k in bindings || !allowed {
          return None, DatabaseError;
        }
        bindings := bindings[k := Binding(input.mode, input.source, input.endpointId, SettingsOf(input), 1)];
      } else {
        if k !in bindings || bindings[k].revision != input.expectedRevision {
          return None, CasConflict;
        }
        if !allowed {
          return None, DatabaseError;
        }
        var revision := bindings[k].revision + 1;
        bindings := bindings[k := Binding(input.mode, input.source, input.endpointId, SettingsOf(input), revision)];
      }
      if input.ws !in runtime || runtime[input.ws].mode != Active || runtime[input.ws].operation != None
         || runtime[input.ws].bindingRevision != input.expectedRuntimeRevision {
        bindings := before;
        return None, CasConflict;
      }
      runtime := runtime[input.ws := runtime[input.ws].(bindingRevision := runtime[input.ws].bindingRevision + 1)];
      return Some(bindings[k]), Ok;
    }

    method RetireWorkspaceVersion(ws: string, kind: Kind, versionId: string) returns (err: Err)
      modifies this`versions
      ensures (Contents(), err) == Retire(old(Contents()), VersionKey(ws, kind, versionId))
    {
      var k := VersionKey(ws, kind, versionId);
      if k !in versions || versions[k].state == Retired {
        return StateConflict;
      }
      versions := versions[k := versions[k].(state := Retired)];
      return Ok;
    }

    method CreateVersion(input: VersionInput, nextVersion: nat) returns (err: Err)
      requires nextVersion == NextNumber(Contents(), input.ws, input.kind, input.familyId)
      modifies this`versions
      ensures (Contents(), err) == CreateVersionTx(old(Contents()), input)
    {
      if !ValidVersionInput(input) {
        return Invalid;
      }
      var secret := input.secret;
      if input.preserveFrom != "" {
        var from := VersionKey(input.ws, input.kind, input.preserveFrom);
        if from !in versions {
          return NoRows;
        }
        secret := versions[from].secret;
        if secret == "" {
          return DatabaseError;
        }
      }
      var k := VersionKey(input.ws, input.kind, input.id);
      if k in versions || FamilyKey(input.ws, input.kind, input.familyId) !in families {
        return DatabaseError;
      }
      versions := versions[k := Version(input.familyId, nextVersion, input.provider, Draft, input.config, secret)];
      return Ok;
    }

    method MarkVerified(ws: string, kind: Kind, versionId: string) returns (err: Err)
      modifies this`versions
      ensures (Contents(), err) == VerifyVersion(old(Contents()), VersionKey(ws, kind, versionId))
    {
      var k := VersionKey(ws, kind, versionId);
      if k !in versions || versions[k].state != Draft {
        return StateConflict;
      }
      versions := versions[k := versions[k].(state := Verified)];
      return Ok;
    }

    method ReconcileSystemCandidate(c: SystemSpec) returns (version: Option<SystemKey>, err: Err)
      requires UniqueSystemNumbers(Contents())
      modifies this`systemVersions
      ensures (Contents(), version, err) == Candidate(old(Contents()), c)
    {
      if !ValidCandidate(c) {
        return None, Invalid;
      }
      var nextVersion := 1;
      if HasSystemVersion(Contents(), c.kind, c.familyId) {
        LatestExists(Contents(), c.kind, c.familyId);
        var latest :| latest in systemVersions && IsLatest(Contents(), c.kind, c.familyId, latest);
        LatestIsUnique(Contents(), c.kind, c.familyId, latest);
        if Meets(systemVersions[latest], c) {
          return Some(latest), Ok;
        }
        nextVersion := systemVersions[latest].number + 1;
      }
      var k := SystemKey(c.kind, c.candidateId);
      if k in systemVersions {
        return None, DatabaseError;
      }
      systemVersions := systemVersions[k := Version(c.familyId, nextVersion, c.provider, Draft, c.config, c.secret)];
      return Some(k), Ok;
    }

    method MarkSystemVerified(k: SystemKey) returns (err: Err)
      modifies this`systemVersions
      ensures (Contents(), err) == VerifySystemVersion(old(Contents()), k)
    {
      if k !in systemVersions || systemVersions[k].state != Draft {
        return StateConflict;
      }
      systemVersions := systemVersions[k := systemVersions[k].(state := Verified)];
      return Ok;
    }

    /** One turn of `ReconcileSystemDefaults`. */
    method ReconcileSpec(c: SystemSpec) returns (version: Option<SystemKey>, err: Err)
      requires UniqueSystemNumbers(Contents())
      modifies this`systemVersions
      ensures (Contents(), version, err) == ReconcileOne(old(Contents()), c)
      ensures UniqueSystemNumbers(Contents())
    {
      hide UniqueSystemNumbers, Candidate;
      OneKeepsUnique(Contents(), c);
      version, err := ReconcileSystemCandidate(c);
      if err != Ok {
        return None, err;
      }
      if systemVersions[version.value].state == Draft {
        err := MarkSystemVerified(version.value);
      }
    }

    /** The turns are no transaction: what the earlier ones stored stays when one fails. */
    method ReconcileSystemDefaults(specs: seq<SystemSpec>) returns (result: seq<DefaultBinding>, err: Err)
      requires UniqueSystemNumbers(Contents())
      modifies this`systemVersions
      ensures (Contents(), result, err) == Reconcile(old(Contents()), specs)
    {
      hide UniqueSystemNumbers, ReconcileOne, ValidDefaultMode, DefaultOf;
      if |specs| != 4 {
        return [], Invalid;
      }
      var seen: set<Kind>;
      result, seen := [], {};
      ghost var goal := ReconcileFrom(Contents(), specs, seen);
      assert specs[0..] == specs && [] + goal.1 == goal.1;
      for i := 0 to |specs|
        invariant UniqueSystemNumbers(Contents())
        invariant goal == After(result, ReconcileFrom(Contents(), specs[i..], seen))
      {
        var c := specs[i];
        assert specs[i..][0] == c && specs[i..][1..] == specs[i + 1..];
        if c.kind in seen || !ValidDefaultMode(c.kind, c.mode) {
          return [], Invalid;
        }
        seen := seen + {c.kind};
        var version, failed := ReconcileSpec(c);
        if failed != Ok {
          return [], failed;
        }
        ghost var rest := ReconcileFrom(Contents(), specs[i + 1..], seen);
        assert result + ([DefaultOf(c, version.value)] + rest.1) == (result + [DefaultOf(c, version.value)]) + rest.1;
        result := result + [DefaultOf(c, version.value)];
      }
      assert specs[|specs|..] == [] && result + [] == result;
      return result, Ok;
    }

    /** The inserts run in a loop; the first that fails undoes them all. */
    method ProvisionWorkspaceIdentity(ws: string, defaults: seq<DefaultBinding>) returns (err: Err)
      modifies this`endpoints, this`bindings, this`runtime
      ensures (Contents(), err) == Provision(old(Contents()), ws, defaults)
    {
      if ws == "" || !ValidDefaults(defaults) {
        return Invalid;
      }
      var endpointsBefore, bindingsBefore, runtimeBefore := endpoints, bindings, runtime;
      if ws !in runtime {
        runtime := runtime[ws := Runtime(Active, 1, 1, None)];
      }
      ghost var goal := ProvisionItems(Contents(), ws, defaults);
      assert defaults[0..] == defaults;
      for i := 0 to |defaults|
        invariant goal == ProvisionItems(Contents(), ws, defaults[i..])
      {
        var item := defaults[i];
        assert defaults[i..][0] == item && defaults[i..][1..] == defaults[i + 1..];
        var e := EndpointKey(ws, item.kind, SystemSource, item.endpointId);
        if e !in endpoints {
          if SystemKey(item.kind, item.versionId) !in systemVersions {
            endpoints, bindings, runtime := endpointsBefore, bindingsBefore, runtimeBefore;
            return DatabaseError;
          }
          endpoints := endpoints[e := item.versionId];
        }
        var b := BindingKey(ws, item.kind);
        if b !in bindings {
          var source, endpoint := NoSource, "";
          if item.mode == Default {
            source, endpoint := SystemSource, item.endpointId;
          }
          bindings := bindings[b := Binding(item.mode, source, endpoint, "{}", 1)];
        }
      }
      return Ok;
    }
  }
}
