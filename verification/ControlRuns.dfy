/** Every run of the control store: what each statement and transaction keeps, and what the two
    revision counters say about the bindings of a workspace. */
module ControlRuns {
  import opened Wrappers
  import opened ControlStore

  /** An endpoint creation whose SELECT has passed and whose INSERT is still to come. */
  datatype Pending = Pending(key: EndpointKey, versionId: string)

  datatype State = State(store: Store, pending: map<nat, Pending>)

  const INITIAL: State := State(EMPTY, map[])

  datatype Op =
    | FamilyOp(family: FamilyKey, name: string, actor: string)
    | CreateVersionOp(version: VersionInput)
    | VerifyOp(versionKey: VersionKey)
    | RetireOp(versionKey: VersionKey)
    | CandidateOp(candidate: SystemSpec)
    | VerifySystemOp(systemKey: SystemKey)
    | CheckEndpointOp(call: nat, key: EndpointKey, versionId: string)
    | InsertEndpointOp(call: nat)
    | BindOp(input: BindingInput)
    | ActivateOp(activation: Activation)
    | BeginOp(ws: string, expected: int, operation: string)
    | TransitionOp(ws: string, operation: string, epoch: int, from: RuntimeMode, to: RuntimeMode)
    | AdvanceOp(ws: string, epoch: int, expected: int)
    | ProvisionOp(ws: string, defaults: seq<DefaultBinding>)

  /** The endpoint is named after its version, as every caller that makes one names it. */
  predicate Named(k: EndpointKey, versionId: string) {
    || (k.source == CustomSource && k.id == CustomName(versionId))
    || (k.source == SystemSource && k.id == SystemName(k.kind, versionId))
  }

  /** The default is one that `ReconcileSystemDefaults` hands out: a stored version that is no draft,
      behind the endpoint named after it. */
  predicate ReconciledItem(st: Store, item: DefaultBinding) {
    && item.endpointId == SystemName(item.kind, item.versionId)
    && SystemKey(item.kind, item.versionId) in st.systemVersions
    && st.systemVersions[SystemKey(item.kind, item.versionId)].state != Draft
  }

  predicate Reconciled(st: Store, items: seq<DefaultBinding>) {
    forall i :: 0 <= i < |items| ==> ReconciledItem(st, items[i])
  }

  /** What the program asks for: an endpoint is created for a version of the workspace, under the name
      made from it, and a workspace is provisioned with defaults that were reconciled before, which they
      stay in every run (`ControlDefaults.DefaultsLast`). */
  predicate Enabled(s: State, op: Op) {
    match op
    case CheckEndpointOp(_, k, versionId) => k.source == CustomSource && Named(k, versionId)
    case ProvisionOp(_, defaults) => Reconciled(s.store, defaults)
    case _ => true
  }

  ghost function Step(s: State, op: Op): State {
    match op
    case FamilyOp(family, name, actor) => s.(store := EnsureFamily(s.store, family, name, actor).0)
    case CreateVersionOp(version) => s.(store := CreateVersionTx(s.store, version).0)
    case VerifyOp(k) => s.(store := VerifyVersion(s.store, k).0)
    case RetireOp(k) => s.(store := Retire(s.store, k).0)
    case CandidateOp(c) => s.(store := Candidate(s.store, c).0)
    case VerifySystemOp(k) => s.(store := VerifySystemVersion(s.store, k).0)
    case CheckEndpointOp(call, k, versionId) =>
      if CheckEndpoint(s.store, k, versionId) == Ok then s.(pending := s.pending[call := Pending(k, versionId)]) else s
    case InsertEndpointOp(call) =>
      if call in s.pending then
        State(InsertEndpoint(s.store, s.pending[call].key, s.pending[call].versionId).0, s.pending - {call})
      else s
    case BindOp(input) => s.(store := SetBindingTx(s.store, input).0)
    case ActivateOp(activation) => s.(store := ActivateBinding(s.store, activation).0)
    case BeginOp(ws, expected, operation) => s.(store := BeginOperation(s.store, ws, expected, operation).0)
    case TransitionOp(ws, operation, epoch, from, to) =>
      s.(store := Transition(s.store, ws, operation, epoch, from, to).0)
    case AdvanceOp(ws, epoch, expected) => s.(store := AdvanceEpoch(s.store, ws, epoch, expected).0)
    case ProvisionOp(ws, defaults) => s.(store := Provision(s.store, ws, defaults).0)
  }

  ghost predicate IsRun(s: State, ops: seq<Op>)
    decreases |ops|
  {
    |ops| == 0 || (Enabled(s, ops[0]) && IsRun(Step(s, ops[0]), ops[1..]))
  }

  ghost function Run(s: State, ops: seq<Op>): State
    decreases |ops|
  {
    if |ops| == 0 then s else Run(Step(s, ops[0]), ops[1..])
  }

  // ---------------------------------------------------------------- versions and endpoints

  /** The version is there and is not a draft; from then on that stays so. */
  predicate Usable(v: Option<Version>) {
    v.Some? && v.value.state != Draft
  }

  predicate EndpointOk(st: Store, k: EndpointKey, versionId: string) {
    versionId != "" && Named(k, versionId) && Usable(VersionOf(st, k, versionId))
  }

  predicate EndpointsOk(s: State) {
    && (forall k :: k in s.store.endpoints ==> EndpointOk(s.store, k, s.store.endpoints[k]))
    && (forall c :: c in s.pending ==> EndpointOk(s.store, s.pending[c].key, s.pending[c].versionId))
    && (forall k :: k in s.store.versions ==> k.id != "" && ValidKind(k.kind))
    && (forall k :: k in s.store.systemVersions ==> k.id != "" && ValidKind(k.kind))
  }

  /** Only the state of a version changes, and never back to a draft. */
  predicate SameProfile(v: Version, v': Version) {
    v' == v.(state := v'.state) && (v.state != Draft ==> v'.state != Draft)
  }

  /** No version disappears, and what it says never changes. */
  predicate VersionsGrow(st: Store, st': Store) {
    && (forall k :: k in st.versions ==> k in st'.versions && SameProfile(st.versions[k], st'.versions[k]))
    && (forall k :: k in st.systemVersions ==>
          k in st'.systemVersions && SameProfile(st.systemVersions[k], st'.systemVersions[k]))
  }

  lemma GrowKeeps(st: Store, st': Store, k: EndpointKey, versionId: string)
    requires VersionsGrow(st, st')
    ensures EndpointOk(st, k, versionId) ==> EndpointOk(st', k, versionId)
    ensures Usable(VersionOf(st, k, versionId)) ==> Usable(VersionOf(st', k, versionId))
  {
    hide Named;
  }

  /** Defaults stay reconciled. */
  lemma GrowKeepsReconciled(st: Store, st': Store, items: seq<DefaultBinding>)
    requires VersionsGrow(st, st') && Reconciled(st, items)
    ensures Reconciled(st', items)
  {
    forall i | 0 <= i < |items|
      ensures ReconciledItem(st', items[i])
    {
      assert ReconciledItem(st, items[i]);
    }
  }

  /** Operations that touch neither versions nor endpoints. */
  predicate Quiet(op: Op) {
    op.FamilyOp? || op.BindOp? || op.ActivateOp? || op.BeginOp? || op.TransitionOp? || op.AdvanceOp?
  }

  lemma QuietStep(s: State, op: Op)
    requires Quiet(op)
    ensures var s' := Step(s, op);
      s'.pending == s.pending && s'.store.versions == s.store.versions
      && s'.store.systemVersions == s.store.systemVersions && s'.store.endpoints == s.store.endpoints
  {
    hide SetBindingTx, ActivateBinding, EnsureFamily;
    match op
    case FamilyOp(family, name, actor) => FamilyFrame(s.store, family, name, actor);
    case BindOp(input) => BindingFrame(s.store, input);
    case ActivateOp(activation) => ActivationFrame(s.store, activation);
    case _ =>
  }

  lemma FamilyFrame(st: Store, family: FamilyKey, name: string, actor: string)
    ensures var t := EnsureFamily(st, family, name, actor).0; t == st.(families := t.families)
  {
  }

  lemma BindingFrame(st: Store, input: BindingInput)
    ensures var t := SetBindingTx(st, input).0; t == st.(bindings := t.bindings, runtime := t.runtime)
  {
    hide BindingCheck, BindingRefers, ValidBindingInput;
  }

  lemma ActivationFrame(st: Store, a: Activation)
    ensures var t := ActivateBinding(st, a).0; t == st.(bindings := t.bindings, runtime := t.runtime)
  {
    hide BindingCheck, BindingRefers;
  }

  function Begun(st: Store, ws: string): Store {
    if ws in st.runtime then st else st.(runtime := st.runtime[ws := Runtime(Active, 1, 1, None)])
  }

  /** What provisioning leaves alone. */
  lemma ProvisionFrame(st: Store, ws: string, items: seq<DefaultBinding>)
    ensures var t := Provision(st, ws, items).0;
      t.versions == st.versions && t.systemVersions == st.systemVersions && t.families == st.families
  {
    hide ProvisionItems;
    ItemsKeepVersions(Begun(st, ws), ws, items);
  }

  lemma {:induction false} ItemsKeepVersions(s: Store, ws: string, items: seq<DefaultBinding>)
    ensures match ProvisionItems(s, ws, items)
            case None => true
            case Some(t) => t.versions == s.versions && t.systemVersions == s.systemVersions && t.families == s.families
                            && t.runtime == s.runtime
    decreases |items|
  {
    if |items| > 0 && ProvisionItem(s, ws, items[0]).Some? {
      ItemsKeepVersions(ProvisionItem(s, ws, items[0]).value, ws, items[1..]);
    }
  }

  /** The endpoints a provisioning adds are system endpoints of stored versions. */
  lemma {:induction false} ItemsAddEndpoints(s: Store, ws: string, items: seq<DefaultBinding>, k: EndpointKey)
    requires ProvisionItems(s, ws, items).Some?
    ensures var t := ProvisionItems(s, ws, items).value;
      && (k in s.endpoints ==> k in t.endpoints && t.endpoints[k] == s.endpoints[k])
      && (k in t.endpoints && k !in s.endpoints ==> AddedBy(s, items, k, t.endpoints[k]))
    decreases |items|
  {
    if |items| > 0 {
      var u := ProvisionItem(s, ws, items[0]).value;
      var t := ProvisionItems(u, ws, items[1..]).value;
      ItemsAddEndpoints(u, ws, items[1..], k);
      if k in t.endpoints && k !in u.endpoints {
        var i :| 0 <= i < |items| - 1 && DefaultFor(items[1..][i], k, t.endpoints[k]);
        assert items[i + 1] == items[1..][i];
      } else if k in t.endpoints && k !in s.endpoints {
        assert DefaultFor(items[0], k, t.endpoints[k]);
      }
    }
  }

  predicate DefaultFor(item: DefaultBinding, k: EndpointKey, versionId: string) {
    item.endpointId == k.id && item.versionId == versionId && item.kind == k.kind
  }

  predicate AddedBy(s: Store, items: seq<DefaultBinding>, k: EndpointKey, versionId: string) {
    && k.source == SystemSource && SystemKey(k.kind, versionId) in s.systemVersions
    && exists i :: 0 <= i < |items| && DefaultFor(items[i], k, versionId)
  }

  lemma StepGrows(s: State, op: Op)
    ensures VersionsGrow(s.store, Step(s, op).store)
  {
    if Quiet(op) {
      QuietStep(s, op);
    } else if op.ProvisionOp? {
      ProvisionFrame(s.store, op.ws, op.defaults);
    } else {
      VersionOpGrows(s, op);
    }
  }

  lemma VersionOpGrows(s: State, op: Op)
    requires !Quiet(op) && !op.ProvisionOp?
    ensures VersionsGrow(s.store, Step(s, op).store)
    ensures !op.CreateVersionOp? && !op.CandidateOp? ==>
      (Step(s, op).store.versions.Keys == s.store.versions.Keys
       && Step(s, op).store.systemVersions.Keys == s.store.systemVersions.Keys)
  {
    hide IsNext, CreateVersionTx, Candidate, InsertEndpoint, CheckEndpoint;
    match op
    case CreateVersionOp(version) => CreateFrame(s.store, version);
    case CandidateOp(c) => CandidateFrame(s.store, c);
    case InsertEndpointOp(call) =>
      if call in s.pending {
        InsertFrame(s.store, s.pending[call].key, s.pending[call].versionId);
      }
    case _ =>
  }

  lemma CreateFrame(st: Store, v: VersionInput)
    ensures var t := CreateVersionTx(st, v).0;
      && t == st.(versions := t.versions)
      && (forall k :: k in st.versions ==> k in t.versions && t.versions[k] == st.versions[k])
      && (forall k :: k in t.versions && k !in st.versions ==> k.id != "" && ValidKind(k.kind))
  {
    hide IsNext;
  }

  lemma CandidateFrame(st: Store, c: SystemSpec)
    ensures var t := Candidate(st, c).0;
      && t == st.(systemVersions := t.systemVersions)
      && (forall k :: k in st.systemVersions ==> k in t.systemVersions && t.systemVersions[k] == st.systemVersions[k])
      && (forall k :: k in t.systemVersions && k !in st.systemVersions ==> k.id != "" && ValidKind(k.kind))
  {
    hide IsLatest, HasSystemVersion, Meets;
  }

  lemma InsertFrame(st: Store, k: EndpointKey, versionId: string)
    ensures var t := InsertEndpoint(st, k, versionId).0; t == st.(endpoints := t.endpoints)
  {
  }

  /** No endpoint row disappears or changes. */
  lemma EndpointsKept(s: State, op: Op, k: EndpointKey)
    requires k in s.store.endpoints
    ensures k in Step(s, op).store.endpoints && Step(s, op).store.endpoints[k] == s.store.endpoints[k]
  {
    hide ProvisionItems, CreateVersionTx, Candidate, VersionOf;
    match op
    case CreateVersionOp(version) => CreateFrame(s.store, version);
    case CandidateOp(c) => CandidateFrame(s.store, c);
    case ProvisionOp(ws, defaults) => ProvisionEndpoints(s.store, ws, defaults, k);
    case _ =>
      if Quiet(op) {
        QuietStep(s, op);
      }
  }

  /** The endpoint rows a step adds are right. */
  lemma EndpointAdded(s: State, op: Op, k: EndpointKey)
    requires EndpointsOk(s) && Enabled(s, op) && k in Step(s, op).store.endpoints && k !in s.store.endpoints
    ensures EndpointOk(s.store, k, Step(s, op).store.endpoints[k])
  {
    hide ProvisionItems, CreateVersionTx, Candidate, Usable, Named, Reconciled;
    match op
    case CreateVersionOp(version) => CreateFrame(s.store, version);
    case CandidateOp(c) => CandidateFrame(s.store, c);
    case ProvisionOp(ws, defaults) => ProvisionedIsOk(s.store, ws, defaults, k);
    case _ =>
      if Quiet(op) {
        QuietStep(s, op);
      }
  }

  lemma ProvisionEndpoints(st: Store, ws: string, items: seq<DefaultBinding>, k: EndpointKey)
    ensures var t := Provision(st, ws, items).0;
      && (k in st.endpoints ==> k in t.endpoints && t.endpoints[k] == st.endpoints[k])
      && (k in t.endpoints && k !in st.endpoints ==> ValidDefaults(items) && AddedBy(st, items, k, t.endpoints[k]))
  {
    hide ProvisionItems, ValidDefaults;
    if ProvisionItems(Begun(st, ws), ws, items).Some? {
      ItemsAddEndpoints(Begun(st, ws), ws, items, k);
    }
  }

  lemma ProvisionedIsOk(st: Store, ws: string, items: seq<DefaultBinding>, k: EndpointKey)
    requires Reconciled(st, items)
    requires k in Provision(st, ws, items).0.endpoints && k !in st.endpoints
    ensures EndpointOk(st, k, Provision(st, ws, items).0.endpoints[k])
  {
    hide Provision, SystemName;
    ProvisionEndpoints(st, ws, items, k);
    var versionId := Provision(st, ws, items).0.endpoints[k];
    var i :| 0 <= i < |items| && DefaultFor(items[i], k, versionId);
    assert ReconciledItem(st, items[i]);
  }

  /** Every step keeps the endpoints right, however SELECTs and INSERTs interleave. */
  lemma EndpointsStep(s: State, op: Op)
    requires EndpointsOk(s) && Enabled(s, op)
    ensures EndpointsOk(Step(s, op))
  {
    hide EndpointOk, Usable, VersionsGrow, Step, VersionOf, Enabled;
    var s' := Step(s, op);
    StepGrows(s, op);
    forall k | k in s'.store.endpoints
      ensures EndpointOk(s'.store, k, s'.store.endpoints[k])
    {
      if k in s.store.endpoints {
        EndpointsKept(s, op, k);
      } else {
        EndpointAdded(s, op, k);
      }
      GrowKeeps(s.store, s'.store, k, s'.store.endpoints[k]);
    }
    forall c | c in s'.pending
      ensures EndpointOk(s'.store, s'.pending[c].key, s'.pending[c].versionId)
    {
      PendingAfter(s, op, c);
      GrowKeeps(s.store, s'.store, s'.pending[c].key, s'.pending[c].versionId);
    }
    VersionKeysAfter(s, op);
  }

  lemma PendingAfter(s: State, op: Op, c: nat)
    requires EndpointsOk(s) && Enabled(s, op) && c in Step(s, op).pending
    ensures EndpointOk(s.store, Step(s, op).pending[c].key, Step(s, op).pending[c].versionId)
  {
    hide EndpointOk, CheckEndpoint, Named, Step;
    PendingFrom(s, op);
    if op.CheckEndpointOp? && CheckEndpoint(s.store, op.key, op.versionId) == Ok {
      CheckedIsOk(s, op.key, op.versionId);
    }
  }

  lemma CheckedIsOk(s: State, k: EndpointKey, versionId: string)
    requires EndpointsOk(s) && CheckEndpoint(s.store, k, versionId) == Ok && Named(k, versionId)
    ensures EndpointOk(s.store, k, versionId)
  {
    hide Named;
  }

  lemma PendingFrom(s: State, op: Op)
    ensures var p := Step(s, op).pending;
      if op.CheckEndpointOp? && CheckEndpoint(s.store, op.key, op.versionId) == Ok then
        p == s.pending[op.call := Pending(op.key, op.versionId)]
      else forall c :: c in p ==> c in s.pending && p[c] == s.pending[c]
  {
    hide CheckEndpoint;
  }

  lemma VersionKeysAfter(s: State, op: Op)
    requires EndpointsOk(s)
    ensures forall k :: k in Step(s, op).store.versions ==> k.id != "" && ValidKind(k.kind)
    ensures forall k :: k in Step(s, op).store.systemVersions ==> k.id != "" && ValidKind(k.kind)
  {
    hide CreateVersionTx, Candidate, EndpointOk, Usable;
    match op
    case CreateVersionOp(version) => CreateFrame(s.store, version);
    case CandidateOp(c) => CandidateFrame(s.store, c);
    case ProvisionOp(ws, defaults) => ProvisionFrame(s.store, ws, defaults);
    case _ =>
      if Quiet(op) {
        QuietStep(s, op);
      } else {
        VersionOpGrows(s, op);
      }
  }

  // ---------------------------------------------------------------- what a run keeps

  /** No run loses a version, changes what one says, or rewrites an endpoint. */
  lemma {:induction false} StoreGrows(s: State, ops: seq<Op>)
    ensures VersionsGrow(s.store, Run(s, ops).store)
    ensures forall k :: k in s.store.endpoints ==>
      k in Run(s, ops).store.endpoints && Run(s, ops).store.endpoints[k] == s.store.endpoints[k]
    decreases |ops|
  {
    hide Step, SameProfile;
    if |ops| > 0 {
      var s' := Step(s, ops[0]);
      StoreGrows(s', ops[1..]);
      StepGrows(s, ops[0]);
      GrowTwice(s.store, s'.store, Run(s', ops[1..]).store);
      forall k | k in s.store.endpoints
        ensures k in s'.store.endpoints && s'.store.endpoints[k] == s.store.endpoints[k]
      {
        EndpointsKept(s, ops[0], k);
      }
    } else {
      GrowNone(s.store);
    }
  }

  lemma GrowNone(st: Store)
    ensures VersionsGrow(st, st)
  {
  }

  lemma GrowTwice(a: Store, b: Store, c: Store)
    requires VersionsGrow(a, b) && VersionsGrow(b, c)
    ensures VersionsGrow(a, c)
  {
  }

  // ---------------------------------------------------------------- drafts behind system endpoints

  /** Every stored endpoint passes the usability check of the resolver. */
  predicate AllUsable(st: Store) {
    forall k :: k in st.endpoints ==> Usable(VersionOf(st, k, st.endpoints[k]))
  }

  /** A provisioning that would store an endpoint for a draft. */
  predicate DraftDefault(st: Store, ws: string, items: seq<DefaultBinding>) {
    Provision(st, ws, items).1 == Ok
    && exists i :: 0 <= i < |items| && NewDraft(st, ws, items[i])
  }

  predicate NewDraft(st: Store, ws: string, item: DefaultBinding) {
    && EndpointKey(ws, item.kind, SystemSource, item.endpointId) !in st.endpoints
    && SystemKey(item.kind, item.versionId) in st.systemVersions
    && st.systemVersions[SystemKey(item.kind, item.versionId)].state == Draft
  }

  /** A new endpoint is stored for the version its default names. */
  lemma {:induction false} ItemsStore(s: Store, ws: string, items: seq<DefaultBinding>, i: nat)
    requires ProvisionItems(s, ws, items).Some? && i < |items|
    requires forall p, q :: 0 <= p < q < |items| ==> items[p].kind != items[q].kind
    ensures var t := ProvisionItems(s, ws, items).value;
      var e := EndpointKey(ws, items[i].kind, SystemSource, items[i].endpointId);
      e in t.endpoints && (e !in s.endpoints ==> t.endpoints[e] == items[i].versionId)
    decreases |items|
  {
    var u := ProvisionItem(s, ws, items[0]).value;
    if i == 0 {
      ItemsAddEndpoints(u, ws, items[1..], EndpointKey(ws, items[0].kind, SystemSource, items[0].endpointId));
    } else {
      assert items[1..][i - 1] == items[i];
      ItemsStore(u, ws, items[1..], i - 1);
      assert items[0].kind != items[i].kind;
    }
  }

  /** `ProvisionWorkspaceIdentity` itself does not look at states: it keeps all endpoints usable exactly
      when no draft is among the defaults it stores endpoints for. */
  lemma ProvisionUsableIff(st: Store, ws: string, items: seq<DefaultBinding>)
    requires AllUsable(st)
    ensures AllUsable(Provision(st, ws, items).0) <==> !DraftDefault(st, ws, items)
  {
    hide Provision, DraftDefault, Usable, VersionOf;
    if DraftDefault(st, ws, items) {
      StoredDraft(st, ws, items);
    } else {
      var t := Provision(st, ws, items).0;
      ProvisionFrame(st, ws, items);
      forall k | k in t.endpoints
        ensures Usable(VersionOf(t, k, t.endpoints[k]))
      {
        ProvisionEndpoints(st, ws, items, k);
        SameVersions(st, t, k);
        if k !in st.endpoints {
          AddedIsUsable(st, ws, items, k);
        }
      }
    }
  }

  lemma SameVersions(st: Store, t: Store, k: EndpointKey)
    requires t.versions == st.versions && t.systemVersions == st.systemVersions
    ensures forall versionId :: VersionOf(t, k, versionId) == VersionOf(st, k, versionId)
  {
  }

  /** Reconciled defaults are never that. */
  lemma ReconciledIsNoDraft(st: Store, ws: string, items: seq<DefaultBinding>)
    requires Reconciled(st, items)
    ensures !DraftDefault(st, ws, items)
  {
    hide Provision, SystemName;
    forall i | 0 <= i < |items|
      ensures !NewDraft(st, ws, items[i])
    {
      assert ReconciledItem(st, items[i]);
    }
  }

  lemma StoredDraft(st: Store, ws: string, items: seq<DefaultBinding>)
    requires DraftDefault(st, ws, items)
    ensures !AllUsable(Provision(st, ws, items).0)
  {
    hide ProvisionItems, ProvisionItem;
    var i :| 0 <= i < |items| && NewDraft(st, ws, items[i]);
    var t := Provision(st, ws, items).0;
    ProvisionFrame(st, ws, items);
    ItemsStore(Begun(st, ws), ws, items, i);
    var e := EndpointKey(ws, items[i].kind, SystemSource, items[i].endpointId);
    assert e in t.endpoints && !Usable(VersionOf(t, e, t.endpoints[e]));
  }

  lemma AddedIsUsable(st: Store, ws: string, items: seq<DefaultBinding>, k: EndpointKey)
    requires k in Provision(st, ws, items).0.endpoints && k !in st.endpoints
    requires !DraftDefault(st, ws, items)
    ensures Usable(VersionOf(st, k, Provision(st, ws, items).0.endpoints[k]))
  {
    hide ProvisionItems, ProvisionItem;
    var versionId := Provision(st, ws, items).0.endpoints[k];
    ItemsAddEndpoints(Begun(st, ws), ws, items, k);
    ItemsInWorkspace(Begun(st, ws), ws, items, k);
    var i :| 0 <= i < |items| && DefaultFor(items[i], k, versionId);
    assert !NewDraft(st, ws, items[i]);
  }

  lemma {:induction false} ItemsInWorkspace(s: Store, ws: string, items: seq<DefaultBinding>, k: EndpointKey)
    requires ProvisionItems(s, ws, items).Some?
    ensures k in ProvisionItems(s, ws, items).value.endpoints && k !in s.endpoints ==> k.ws == ws
    decreases |items|
  {
    if |items| > 0 {
      ItemsInWorkspace(ProvisionItem(s, ws, items[0]).value, ws, items[1..], k);
    }
  }

  // ---------------------------------------------------------------- bindings and revisions

  function Revision(st: Store, ws: string, kind: Kind): int {
    if BindingKey(ws, kind) in st.bindings then st.bindings[BindingKey(ws, kind)].revision else 0
  }

  /** The sum of the binding revisions of a workspace. */
  function Total(st: Store, ws: string): int {
    Revision(st, ws, DataStore) + Revision(st, ws, ObjectS3)
    + Revision(st, ws, LlmChat) + Revision(st, ws, LlmTranscription)
  }

  predicate RowOk(st: Store, k: BindingKey, row: Binding) {
    && ValidKind(k.kind) && BindingCheck(k.kind, row.mode, row.source)
    && BindingRefers(st, k.ws, k.kind, row.source, row.endpointId)
    && row.revision >= 1 && (row.source == NoSource ==> row.endpointId == "")
  }

  /** All four services are bound from the moment a workspace has a runtime row, and the runtime
      counter is the sum of the binding counters less three. */
  ghost predicate BindingsOk(st: Store) {
    && (forall k :: k in st.bindings ==> RowOk(st, k, st.bindings[k]))
    && (forall k: BindingKey :: ValidKind(k.kind) ==> (k in st.bindings <==> k.ws in st.runtime))
    && (forall ws :: ws in st.runtime ==> st.runtime[ws].bindingRevision == Total(st, ws) - 3)
  }

  /** One binding row and the runtime row move on by one, everything else stays. */
  predicate Advances(st: Store, st': Store, ws: string, kind: Kind) {
    var k := BindingKey(ws, kind);
    && ValidKind(kind) && k in st.bindings && k in st'.bindings && ws in st.runtime && ws in st'.runtime
    && st'.bindings == st.bindings[k := st'.bindings[k]] && st'.runtime == st.runtime[ws := st'.runtime[ws]]
    && st'.bindings[k].revision == st.bindings[k].revision + 1
    && st'.runtime[ws].bindingRevision == st.runtime[ws].bindingRevision + 1
    && st'.endpoints == st.endpoints
  }

  lemma AdvanceRevision(st: Store, st': Store, ws: string, kind: Kind, u: string, kd: Kind)
    requires Advances(st, st', ws, kind)
    ensures Revision(st', u, kd) == Revision(st, u, kd) + if u == ws && kd == kind then 1 else 0
  {
  }

  lemma AdvanceTotal(st: Store, st': Store, ws: string, kind: Kind, u: string)
    requires Advances(st, st', ws, kind)
    ensures Total(st', u) == Total(st, u) + if u == ws then 1 else 0
  {
    hide Advances, Revision;
    assert ValidKind(kind) by { AdvanceKind(st, st', ws, kind); }
    AdvanceRevision(st, st', ws, kind, u, DataStore);
    AdvanceRevision(st, st', ws, kind, u, ObjectS3);
    AdvanceRevision(st, st', ws, kind, u, LlmChat);
    AdvanceRevision(st, st', ws, kind, u, LlmTranscription);
  }

  lemma AdvanceKind(st: Store, st': Store, ws: string, kind: Kind)
    requires Advances(st, st', ws, kind)
    ensures ValidKind(kind)
  {
  }

  lemma AdvanceKeeps(st: Store, st': Store, ws: string, kind: Kind)
    requires BindingsOk(st) && Advances(st, st', ws, kind)
    requires RowOk(st, BindingKey(ws, kind), st'.bindings[BindingKey(ws, kind)])
    ensures BindingsOk(st')
  {
    hide BindingCheck, Total;
    forall u | u in st'.runtime
      ensures st'.runtime[u].bindingRevision == Total(st', u) - 3
    {
      AdvanceTotal(st, st', ws, kind, u);
    }
  }

  /** The endpoint and its source are what the mode asks for, and the service knows the mode. */
  predicate EndpointFits(st: Store, b: BindingInput) {
    match b.mode
    case Default => b.source == SystemSource && b.endpointId != ""
      && EndpointKey(b.ws, b.kind, SystemSource, b.endpointId) in st.endpoints
    case Custom => b.source == CustomSource && b.endpointId != ""
      && EndpointKey(b.ws, b.kind, CustomSource, b.endpointId) in st.endpoints
    case Disabled => (b.kind == LlmChat || b.kind == LlmTranscription) && b.source == NoSource && b.endpointId == ""
    case ReuseChat => b.kind == LlmTranscription && b.source == NoSource && b.endpointId == ""
    case OtherMode(_) => false
  }

  /** `SetBinding` succeeds exactly for an idle, active workspace under both of its revisions, with an
      endpoint that is stored and fits the mode. */
  lemma SetBindingSucceedsIff(st: Store, b: BindingInput)
    requires BindingsOk(st)
    ensures SetBindingTx(st, b).1 == Ok <==>
      && b.ws != "" && b.actor != "" && b.kind in {DataStore, ObjectS3, LlmChat, LlmTranscription}
      && b.ws in st.runtime && st.runtime[b.ws].mode == Active && st.runtime[b.ws].operation == None
      && b.expectedRuntimeRevision == st.runtime[b.ws].bindingRevision && b.expectedRuntimeRevision > 0
      && BindingKey(b.ws, b.kind) in st.bindings
      && b.expectedRevision == st.bindings[BindingKey(b.ws, b.kind)].revision && EndpointFits(st, b)
  {
    hide Total;
    if BindingKey(b.ws, b.kind) in st.bindings {
      assert RowOk(st, BindingKey(b.ws, b.kind), st.bindings[BindingKey(b.ws, b.kind)]);
    }
  }

  /** A successful `SetBinding` moves exactly one binding and the runtime on, from the revisions it
      was given. */
  lemma SetBindingAdvances(st: Store, b: BindingInput)
    requires BindingsOk(st)
    ensures var (st', err) := SetBindingTx(st, b);
      if err == Ok then
        && Advances(st, st', b.ws, b.kind) && BindingsOk(st')
        && b.expectedRevision == st.bindings[BindingKey(b.ws, b.kind)].revision
        && b.expectedRuntimeRevision == st.runtime[b.ws].bindingRevision
        && st'.bindings[BindingKey(b.ws, b.kind)]
             == Binding(b.mode, b.source, b.endpointId, SettingsOf(b), b.expectedRevision + 1)
      else st' == st
  {
    hide Total;
    var (st', err) := SetBindingTx(st, b);
    if err == Ok {
      assert RowOk(st, BindingKey(b.ws, b.kind), st'.bindings[BindingKey(b.ws, b.kind)]) by {
        assert BindingKey(b.ws, b.kind) in st.bindings;
      }
      assert Advances(st, st', b.ws, b.kind);
      AdvanceKeeps(st, st', b.ws, b.kind);
    }
  }

  lemma ActivationAdvances(st: Store, a: Activation)
    requires BindingsOk(st)
    ensures var (st', err) := ActivateBinding(st, a);
      if err == Ok then
        && Advances(st, st', a.ws, a.kind) && BindingsOk(st')
        && a.expectedRuntimeRevision == st.runtime[a.ws].bindingRevision
      else st' == st
  {
    hide Total;
    var (st', err) := ActivateBinding(st, a);
    if err == Ok {
      var k := BindingKey(a.ws, a.kind);
      assert RowOk(st, k, st.bindings[k]);
      assert RowOk(st, k, st'.bindings[k]);
      assert Advances(st, st', a.ws, a.kind);
      AdvanceKeeps(st, st', a.ws, a.kind);
    }
  }

  /** Bindings and runtime counters are left as they are. */
  predicate CountersStay(st: Store, st': Store) {
    && st'.bindings == st.bindings && st'.runtime.Keys == st.runtime.Keys
    && forall ws :: ws in st.runtime ==> st'.runtime[ws].bindingRevision == st.runtime[ws].bindingRevision
  }

  lemma StayKeeps(st: Store, st': Store)
    requires BindingsOk(st) && CountersStay(st, st')
    requires forall k :: k in st.endpoints ==> k in st'.endpoints
    ensures BindingsOk(st')
  {
    hide BindingCheck, Total, RowOk;
    forall ws
      ensures Total(st', ws) == Total(st, ws)
    {
      SameTotal(st, st', ws);
    }
    forall k | k in st'.bindings
      ensures RowOk(st', k, st'.bindings[k])
    {
      RefersGrow(st, st', k, st.bindings[k]);
    }
  }

  lemma SameTotal(st: Store, st': Store, ws: string)
    requires st'.bindings == st.bindings
    ensures Total(st', ws) == Total(st, ws)
  {
  }

  /** Operations that leave the bindings and the runtime counters alone. */
  predicate Neutral(op: Op) {
    !op.BindOp? && !op.ActivateOp? && !op.ProvisionOp?
  }

  lemma NeutralStep(s: State, op: Op)
    requires Neutral(op)
    ensures CountersStay(s.store, Step(s, op).store)
  {
    hide CreateVersionTx, Candidate, EnsureFamily, InsertEndpoint, CheckEndpoint, VerifyVersion, VerifySystemVersion;
    match op
    case FamilyOp(family, name, actor) => FamilyFrame(s.store, family, name, actor);
    case CreateVersionOp(version) => CreateFrame(s.store, version);
    case CandidateOp(c) => CandidateFrame(s.store, c);
    case VerifyOp(k) => VerifyFrame(s.store, k);
    case VerifySystemOp(k) => VerifySystemFrame(s.store, k);
    case InsertEndpointOp(call) =>
      if call in s.pending {
        InsertFrame(s.store, s.pending[call].key, s.pending[call].versionId);
      }
    case _ =>
  }

  lemma VerifyFrame(st: Store, k: VersionKey)
    ensures var t := VerifyVersion(st, k).0; t == st.(versions := t.versions)
  {
  }

  lemma VerifySystemFrame(st: Store, k: SystemKey)
    ensures var t := VerifySystemVersion(st, k).0; t == st.(systemVersions := t.systemVersions)
  {
  }

  /** A provisioning adds bindings only for the defaults, and leaves existing ones alone. */
  lemma {:induction false} ItemsBind(s: Store, ws: string, items: seq<DefaultBinding>, b: BindingKey)
    requires ProvisionItems(s, ws, items).Some?
    requires forall i :: 0 <= i < |items| ==> ValidDefaultMode(items[i].kind, items[i].mode)
    ensures var t := ProvisionItems(s, ws, items).value;
      && (b in s.bindings ==> b in t.bindings && t.bindings[b] == s.bindings[b])
      && (b in t.bindings && b !in s.bindings ==>
            b.ws == ws && t.bindings[b].revision == 1 && RowOk(t, b, t.bindings[b]))
      && (b.ws == ws && (exists i :: 0 <= i < |items| && items[i].kind == b.kind) ==> b in t.bindings)
      && (forall k :: k in s.endpoints ==> k in t.endpoints)
    decreases |items|
  {
    hide BindingCheck, RowOk;
    if |items| > 0 {
      var u := ProvisionItem(s, ws, items[0]).value;
      var t := ProvisionItems(u, ws, items[1..]).value;
      ItemsBind(u, ws, items[1..], b);
      ItemBinds(s, ws, items[0], b);
      if b in u.bindings && b !in s.bindings {
        RefersGrow(u, t, b, u.bindings[b]);
      }
      if b.ws == ws && b !in u.bindings && exists i :: 0 <= i < |items| && items[i].kind == b.kind {
        var i :| 0 <= i < |items| && items[i].kind == b.kind;
        assert i > 0 && items[1..][i - 1].kind == b.kind;
      }
    }
  }

  lemma ItemBinds(s: Store, ws: string, item: DefaultBinding, b: BindingKey)
    requires ProvisionItem(s, ws, item).Some? && ValidDefaultMode(item.kind, item.mode)
    ensures var u := ProvisionItem(s, ws, item).value;
      && (b in s.bindings ==> b in u.bindings && u.bindings[b] == s.bindings[b])
      && (b == BindingKey(ws, item.kind) ==> b in u.bindings)
      && (b in u.bindings && b !in s.bindings ==>
            b == BindingKey(ws, item.kind) && u.bindings[b].revision == 1 && RowOk(u, b, u.bindings[b]))
      && (forall k :: k in s.endpoints ==> k in u.endpoints)
  {
  }

  lemma RefersGrow(st: Store, st': Store, k: BindingKey, row: Binding)
    requires RowOk(st, k, row) && forall e :: e in st.endpoints ==> e in st'.endpoints
    ensures RowOk(st', k, row)
  {
    hide BindingCheck;
  }

  /** Four defaults of different kinds cover the four services. */
  lemma AllKinds(items: seq<DefaultBinding>, kind: Kind)
    requires ValidDefaults(items) && ValidKind(kind)
    ensures exists i :: 0 <= i < 4 && items[i].kind == kind
  {
    assert ValidKind(items[0].kind) && ValidKind(items[1].kind) && ValidKind(items[2].kind) && ValidKind(items[3].kind);
    assert items[0].kind == kind || items[1].kind == kind || items[2].kind == kind || items[3].kind == kind by {
      assert items[0].kind != items[1].kind && items[0].kind != items[2].kind && items[0].kind != items[3].kind;
      assert items[1].kind != items[2].kind && items[1].kind != items[3].kind && items[2].kind != items[3].kind;
    }
  }

  /** Provisioning binds all four services of a new workspace at revision 1, and changes no binding of
      an existing one. */
  lemma ProvisionBinds(st: Store, ws: string, items: seq<DefaultBinding>)
    requires BindingsOk(st)
    ensures var (t, err) := Provision(st, ws, items);
      && (err != Ok ==> t == st)
      && (err == Ok && ws in st.runtime ==> t.bindings == st.bindings && t.runtime == st.runtime)
      && (err == Ok && ws !in st.runtime ==> t.runtime == st.runtime[ws := Runtime(Active, 1, 1, None)])
      && (forall k: BindingKey :: k.ws != ws || ws in st.runtime ==> (k in t.bindings <==> k in st.bindings))
      && (forall k :: k in st.bindings ==> k in t.bindings && t.bindings[k] == st.bindings[k])
      && BindingsOk(t)
  {
    hide Total, RowOk, ProvisionItems, ValidDefaults;
    var (t, err) := Provision(st, ws, items);
    if err == Ok {
      var begun := Begun(st, ws);
      ItemsKeepVersions(begun, ws, items);
      forall b: BindingKey
        ensures b in st.bindings ==> b in t.bindings && t.bindings[b] == st.bindings[b]
        ensures b in t.bindings && b !in st.bindings ==> b.ws == ws && ws !in st.runtime && t.bindings[b].revision == 1
        ensures b in t.bindings ==> RowOk(t, b, t.bindings[b])
        ensures ValidKind(b.kind) && b.ws == ws ==> b in t.bindings
      {
        ProvisionedBinding(st, ws, items, b);
      }
      if ws in st.runtime {
        assert t.bindings == st.bindings;
      }
      forall u | u in t.runtime
        ensures t.runtime[u].bindingRevision == Total(t, u) - 3
      {
        if u in st.runtime {
          SameRevisions(st, t, u);
        } else {
          FreshTotal(t, u);
        }
      }
      RowKinds(t);
    }
  }

  lemma ProvisionedBinding(st: Store, ws: string, items: seq<DefaultBinding>, b: BindingKey)
    requires BindingsOk(st) && Provision(st, ws, items).1 == Ok
    ensures var t := Provision(st, ws, items).0;
      && (b in st.bindings ==> b in t.bindings && t.bindings[b] == st.bindings[b])
      && (b in t.bindings && b !in st.bindings ==> b.ws == ws && ws !in st.runtime && t.bindings[b].revision == 1)
      && (b in t.bindings ==> RowOk(t, b, t.bindings[b]))
      && (ValidKind(b.kind) && b.ws == ws ==> b in t.bindings)
  {
    hide BindingCheck, ProvisionItems, Total;
    var begun := Begun(st, ws);
    var t := Provision(st, ws, items).0;
    ItemsBind(begun, ws, items, b);
    if b in st.bindings {
      assert RowOk(begun, b, st.bindings[b]);
      RefersGrow(begun, t, b, st.bindings[b]);
    }
    if ValidKind(b.kind) {
      AllKinds(items, b.kind);
    }
  }

  lemma RowKinds(st: Store)
    requires forall k :: k in st.bindings ==> RowOk(st, k, st.bindings[k])
    ensures forall k :: k in st.bindings ==> ValidKind(k.kind)
  {
  }

  lemma SameRevisions(st: Store, st': Store, ws: string)
    requires forall k: BindingKey :: ValidKind(k.kind) && k.ws == ws ==> k in st.bindings && k in st'.bindings
    requires forall k :: k in st.bindings && k in st'.bindings ==> st'.bindings[k] == st.bindings[k]
    ensures Total(st', ws) == Total(st, ws)
  {
    assert BindingKey(ws, DataStore) in st.bindings && BindingKey(ws, ObjectS3) in st.bindings;
    assert BindingKey(ws, LlmChat) in st.bindings && BindingKey(ws, LlmTranscription) in st.bindings;
  }

  lemma FreshTotal(st: Store, ws: string)
    requires forall k: BindingKey :: ValidKind(k.kind) && k.ws == ws ==>
               k in st.bindings && st.bindings[k].revision == 1
    ensures Total(st, ws) == 4
  {
    assert BindingKey(ws, DataStore) in st.bindings && BindingKey(ws, ObjectS3) in st.bindings;
    assert BindingKey(ws, LlmChat) in st.bindings && BindingKey(ws, LlmTranscription) in st.bindings;
  }

  lemma BindingsStep(s: State, op: Op)
    requires BindingsOk(s.store)
    ensures BindingsOk(Step(s, op).store)
  {
    hide BindingsOk, CountersStay, SetBindingTx, ActivateBinding, Provision;
    match op
    case BindOp(input) => SetBindingAdvances(s.store, input);
    case ActivateOp(activation) => ActivationAdvances(s.store, activation);
    case ProvisionOp(ws, defaults) => ProvisionBinds(s.store, ws, defaults);
    case _ =>
      NeutralStep(s, op);
      forall k | k in s.store.endpoints
        ensures k in Step(s, op).store.endpoints
      {
        EndpointsKept(s, op, k);
      }
      StayKeeps(s.store, Step(s, op).store);
  }

  /** The unique index on the system versions. */
  lemma UniqueStep(s: State, op: Op)
    requires UniqueSystemNumbers(s.store)
    ensures UniqueSystemNumbers(Step(s, op).store)
  {
    hide UniqueSystemNumbers, CreateVersionTx, Candidate, VerifySystemVersion, Provision;
    match op
    case CreateVersionOp(version) =>
      CreateFrame(s.store, version);
      SameUnique(s.store, Step(s, op).store);
    case CandidateOp(c) => CandidateKeepsUnique(s.store, c);
    case VerifySystemOp(k) => VerifyKeepsUnique(s.store, k);
    case ProvisionOp(ws, defaults) =>
      ProvisionFrame(s.store, ws, defaults);
      SameUnique(s.store, Step(s, op).store);
    case _ =>
      if Quiet(op) {
        QuietStep(s, op);
      }
      SameUnique(s.store, Step(s, op).store);
  }

  lemma SameUnique(st: Store, t: Store)
    requires UniqueSystemNumbers(st) && t.systemVersions == st.systemVersions
    ensures UniqueSystemNumbers(t)
  {
    forall k, l | k in t.systemVersions && l in t.systemVersions && SameSystemNumber(t, k, l)
      ensures k == l
    {
      assert SameSystemNumber(st, k, l);
    }
  }

  /** The invariant of every run. */
  ghost predicate Inv(s: State) {
    EndpointsOk(s) && BindingsOk(s.store) && UniqueSystemNumbers(s.store)
  }

  lemma StepInv(s: State, op: Op)
    requires Inv(s) && Enabled(s, op)
    ensures Inv(Step(s, op))
  {
    hide EndpointsOk, BindingsOk, UniqueSystemNumbers, Step, Enabled;
    EndpointsStep(s, op);
    BindingsStep(s, op);
    UniqueStep(s, op);
  }

  lemma {:induction false} RunInv(s: State, ops: seq<Op>)
    requires Inv(s) && IsRun(s, ops)
    ensures Inv(Run(s, ops))
    decreases |ops|
  {
    hide Inv, Step, Enabled;
    if |ops| > 0 {
      StepInv(s, ops[0]);
      RunInv(Step(s, ops[0]), ops[1..]);
    }
  }

  lemma PartsOfInv(s: State)
    requires Inv(s)
    ensures EndpointsOk(s) && BindingsOk(s.store)
  {
  }

  /** The first calls of a run, and the rest. */
  lemma {:induction false} RunInParts(s: State, first: seq<Op>, rest: seq<Op>)
    ensures Run(s, first + rest) == Run(Run(s, first), rest)
    ensures IsRun(s, first + rest) <==> IsRun(s, first) && IsRun(Run(s, first), rest)
    decreases |first|
  {
    hide Step, Enabled;
    if |first| == 0 {
      assert first + rest == rest;
    } else {
      assert (first + rest)[1..] == first[1..] + rest;
      RunInParts(Step(s, first[0]), first[1..], rest);
    }
  }

  // ---------------------------------------------------------------- what the counters say

  /** In every reachable store the runtime counter of a workspace less the sum of its binding counters
      is the same number, -3: no transaction moves one without the other. */
  lemma CountersBalance(ops: seq<Op>, ws: string)
    requires IsRun(INITIAL, ops) && ws in Run(INITIAL, ops).store.runtime
    ensures var st := Run(INITIAL, ops).store; st.runtime[ws].bindingRevision - Total(st, ws) == -3
  {
    hide Inv, IsRun, Run, Total, BindingsOk;
    InitialInv();
    RunInv(INITIAL, ops);
    PartsOfInv(Run(INITIAL, ops));
    Balanced(Run(INITIAL, ops).store, ws);
  }

  lemma InitialInv()
    ensures Inv(INITIAL)
  {
  }

  lemma Balanced(st: Store, ws: string)
    requires BindingsOk(st) && ws in st.runtime
    ensures st.runtime[ws].bindingRevision == Total(st, ws) - 3
  {
    hide Total, RowOk;
  }

  predicate SameBindings(st: Store, st': Store, ws: string) {
    && (forall k :: k in st.bindings && k.ws == ws ==> k in st'.bindings && st'.bindings[k] == st.bindings[k])
    && (forall k :: k in st'.bindings && k.ws == ws ==> k in st.bindings)
  }

  /** The binding revision a transaction was conditioned on. */
  function Expected(op: Op): Option<(string, int)> {
    match op
    case BindOp(input) => Some((input.ws, input.expectedRuntimeRevision))
    case ActivateOp(a) => Some((a.ws, a.expectedRuntimeRevision))
    case _ => None
  }

  ghost predicate Succeeds(s: State, op: Op) {
    match op
    case BindOp(input) => SetBindingTx(s.store, input).1 == Ok
    case ActivateOp(a) => ActivateBinding(s.store, a).1 == Ok
    case _ => false
  }

  /** A step either leaves the bindings and the counter of a workspace alone, or is a transaction
      conditioned on the counter that raises it by one. */
  lemma CounterStep(s: State, op: Op, ws: string)
    requires Inv(s) && ws in s.store.runtime
    ensures ws in Step(s, op).store.runtime
    ensures var st, st' := s.store, Step(s, op).store; var was := st.runtime[ws].bindingRevision;
      if Succeeds(s, op) && Expected(op).value.0 == ws then
        Expected(op) == Some((ws, was)) && st'.runtime[ws].bindingRevision == was + 1
      else SameBindings(st, st', ws) && st'.runtime[ws].bindingRevision == was
  {
    hide EndpointsOk, BindingsOk, CountersStay, SetBindingTx, ActivateBinding, Provision, Advances, SameBindings;
    match op
    case BindOp(input) =>
      SetBindingAdvances(s.store, input);
      AdvancedCounter(s.store, Step(s, op).store, input.ws, input.kind, ws);
    case ActivateOp(activation) =>
      ActivationAdvances(s.store, activation);
      AdvancedCounter(s.store, Step(s, op).store, activation.ws, activation.kind, ws);
    case ProvisionOp(u, defaults) =>
      ProvisionBinds(s.store, u, defaults);
      StayedCounter(s.store, s.store, ws);
      ProvisionedCounter(s.store, u, defaults, ws);
    case _ =>
      NeutralStep(s, op);
      StayedCounter(s.store, Step(s, op).store, ws);
  }

  lemma AdvancedCounter(st: Store, st': Store, u: string, kind: Kind, ws: string)
    requires ws in st.runtime && (st' == st || Advances(st, st', u, kind))
    ensures ws in st'.runtime
    ensures st' != st && u == ws ==> st'.runtime[ws].bindingRevision == st.runtime[ws].bindingRevision + 1
    ensures st' == st || u != ws ==>
      (SameBindings(st, st', ws) && st'.runtime[ws].bindingRevision == st.runtime[ws].bindingRevision)
    ensures Advances(st, st', u, kind) ==> st' != st
  {
  }

  lemma ProvisionedCounter(st: Store, u: string, defaults: seq<DefaultBinding>, ws: string)
    requires BindingsOk(st) && ws in st.runtime
    ensures var st' := Provision(st, u, defaults).0;
      && ws in st'.runtime && SameBindings(st, st', ws)
      && st'.runtime[ws].bindingRevision == st.runtime[ws].bindingRevision
  {
    hide Provision, RowOk, Total;
    ProvisionBinds(st, u, defaults);
  }

  lemma StayedCounter(st: Store, st': Store, ws: string)
    requires CountersStay(st, st') && ws in st.runtime
    ensures ws in st'.runtime && SameBindings(st, st', ws)
    ensures st'.runtime[ws].bindingRevision == st.runtime[ws].bindingRevision
  {
  }

  /** The counter never falls, and while it stands still the bindings of the workspace are what they
      were: a `binding_revision` determines the whole binding map. */
  lemma {:induction false} RevisionDeterminesBindings(s: State, ops: seq<Op>, ws: string)
    requires Inv(s) && IsRun(s, ops) && ws in s.store.runtime
    ensures ws in Run(s, ops).store.runtime
    ensures var st, st' := s.store, Run(s, ops).store;
      && st.runtime[ws].bindingRevision <= st'.runtime[ws].bindingRevision
      && (st.runtime[ws].bindingRevision == st'.runtime[ws].bindingRevision ==> SameBindings(st, st', ws))
    decreases |ops|
  {
    hide Step, Inv, Succeeds, Enabled;
    if |ops| > 0 {
      CounterStep(s, ops[0], ws);
      StepInv(s, ops[0]);
      RevisionDeterminesBindings(Step(s, ops[0]), ops[1..], ws);
    }
  }

  /** Two transactions of a run that succeed for one workspace were conditioned on different runtime
      revisions, the later one on the larger. */
  lemma NoTwoSuccessesShareARevision(s: State, first: Op, between: seq<Op>, second: Op, ws: string)
    requires Inv(s) && Enabled(s, first) && IsRun(Step(s, first), between) && ws in s.store.runtime
    requires Succeeds(s, first) && Expected(first).value.0 == ws
    requires var s' := Run(Step(s, first), between); Succeeds(s', second) && Expected(second).value.0 == ws
    ensures Expected(first).value.1 < Expected(second).value.1
  {
    hide Step, Inv, Succeeds, Enabled;
    CounterStep(s, first, ws);
    StepInv(s, first);
    RevisionDeterminesBindings(Step(s, first), between, ws);
    RunInv(Step(s, first), between);
    CounterStep(Run(Step(s, first), between), second, ws);
  }

  /** In every reachable store every endpoint, of either source, stands for a version that is verified
      or retired, and is named after it. */
  lemma EndpointsAreUsable(ops: seq<Op>, k: EndpointKey)
    requires IsRun(INITIAL, ops) && k in Run(INITIAL, ops).store.endpoints
    ensures var st := Run(INITIAL, ops).store; var v := VersionOf(st, k, st.endpoints[k]);
      && v.Some? && (v.value.state == Verified || v.value.state == Retired)
      && Named(k, st.endpoints[k])
  {
    hide IsRun, Run, Named;
    InitialInv();
    RunInv(INITIAL, ops);
    assert EndpointOk(Run(INITIAL, ops).store, k, Run(INITIAL, ops).store.endpoints[k]);
  }

  /** The names keep the sources apart: no name is used by a custom and by a system endpoint. */
  lemma NamesDiffer(kind: Kind, versionId: string, versionId': string)
    ensures CustomName(versionId) != SystemName(kind, versionId')
  {
    assert CustomName(versionId)[0] == 'c' && SystemName(kind, versionId')[0] == 's';
  }

  lemma NoNameIsShared(s: State, ws: string, kind: Kind, id: string)
    requires Inv(s)
    ensures !(EndpointKey(ws, kind, CustomSource, id) in s.store.endpoints
              && EndpointKey(ws, kind, SystemSource, id) in s.store.endpoints)
  {
    hide CustomName, SystemName, Usable, BindingsOk, UniqueSystemNumbers;
    var custom, system := EndpointKey(ws, kind, CustomSource, id), EndpointKey(ws, kind, SystemSource, id);
    if custom in s.store.endpoints && system in s.store.endpoints {
      assert EndpointOk(s.store, custom, s.store.endpoints[custom]);
      assert EndpointOk(s.store, system, s.store.endpoints[system]);
      NamesDiffer(kind, s.store.endpoints[custom], s.store.endpoints[system]);
    }
  }

  /** The endpoint of a default is there, or the version for it is. */
  predicate CanStore(st: Store, ws: string, item: DefaultBinding) {
    EndpointKey(ws, item.kind, SystemSource, item.endpointId) in st.endpoints
    || SystemKey(item.kind, item.versionId) in st.systemVersions
  }

  lemma {:induction false} ItemsSucceed(s: Store, ws: string, items: seq<DefaultBinding>)
    requires forall p, q :: 0 <= p < q < |items| ==> items[p].kind != items[q].kind
    ensures ProvisionItems(s, ws, items).Some? <==> forall i :: 0 <= i < |items| ==> CanStore(s, ws, items[i])
    decreases |items|
  {
    if |items| > 0 && CanStore(s, ws, items[0]) {
      var u := ProvisionItem(s, ws, items[0]).value;
      ItemsSucceed(u, ws, items[1..]);
      forall i | 0 < i < |items|
        ensures CanStore(u, ws, items[1..][i - 1]) == CanStore(s, ws, items[i])
      {
        assert items[0].kind != items[i].kind;
      }
      assert forall i :: 0 < i < |items| ==> items[1..][i - 1] == items[i];
    }
  }

  /** Provisioning succeeds exactly for complete defaults whose endpoints or versions are stored, and
      then the workspace has its runtime row. */
  lemma ProvisionSucceedsIff(st: Store, ws: string, items: seq<DefaultBinding>)
    ensures var (t, err) := Provision(st, ws, items);
      && (err == Ok <==>
            ws != "" && ValidDefaults(items) && forall i :: 0 <= i < |items| ==> CanStore(st, ws, items[i]))
      && (err == Ok ==> ws in t.runtime)
      && (err != Ok ==> t == st)
  {
    hide ProvisionItems, ValidDefaultMode;
    if ValidDefaults(items) {
      ItemsSucceed(Begun(st, ws), ws, items);
      ItemsKeepVersions(Begun(st, ws), ws, items);
    }
  }

  // ---------------------------------------------------------------- version numbers

  predicate SameFamily(st: Store, k: VersionKey, l: VersionKey)
    requires k in st.versions && l in st.versions
  {
    k.ws == l.ws && k.kind == l.kind && st.versions[k].familyId == st.versions[l].familyId
  }

  predicate SameNumber(st: Store, k: VersionKey, l: VersionKey) {
    k in st.versions && l in st.versions && SameFamily(st, k, l) && st.versions[k].number == st.versions[l].number
  }

  /** The versions of a family are numbered from one without gaps or repetitions. */
  ghost predicate Numbered(st: Store) {
    && (forall k, l :: SameNumber(st, k, l) ==> k == l)
    && (forall k :: k in st.versions ==>
          st.versions[k].number >= 1 && (st.versions[k].number > 1 ==> HasPredecessor(st, k)))
  }

  predicate HasPredecessor(st: Store, k: VersionKey)
    requires k in st.versions
  {
    exists l :: l in st.versions && SameFamily(st, k, l) && st.versions[l].number == st.versions[k].number - 1
  }

  lemma {:induction false} VersionsAreNumbered(s: State, ops: seq<Op>)
    requires Numbered(s.store)
    ensures Numbered(Run(s, ops).store)
    decreases |ops|
  {
    hide Step, Numbered;
    if |ops| > 0 {
      NumberedStep(s, ops[0]);
      VersionsAreNumbered(Step(s, ops[0]), ops[1..]);
    }
  }

  lemma NumberedStep(s: State, op: Op)
    requires Numbered(s.store)
    ensures Numbered(Step(s, op).store)
  {
    hide Numbered, CreateVersionTx, Candidate, ProvisionItems;
    if Quiet(op) {
      QuietStep(s, op);
      NumbersKept(s.store, Step(s, op).store);
    } else if op.ProvisionOp? {
      ProvisionFrame(s.store, op.ws, op.defaults);
      NumbersKept(s.store, Step(s, op).store);
    } else if op.CreateVersionOp? {
      CreateKeepsNumbers(s.store, op.version);
    } else if op.CandidateOp? {
      CandidateFrame(s.store, op.candidate);
      NumbersKept(s.store, Step(s, op).store);
    } else {
      NumbersKept(s.store, Step(s, op).store);
    }
  }

  lemma NumbersKept(st: Store, st': Store)
    requires Numbered(st) && st'.versions.Keys == st.versions.Keys
    requires forall k :: k in st.versions ==> st'.versions[k].number == st.versions[k].number
    requires forall k :: k in st.versions ==> st'.versions[k].familyId == st.versions[k].familyId
    ensures Numbered(st')
  {
    forall k | k in st'.versions && st'.versions[k].number > 1
      ensures HasPredecessor(st', k)
    {
      assert HasPredecessor(st, k);
      var l :| l in st.versions && SameFamily(st, k, l) && st.versions[l].number == st.versions[k].number - 1;
      assert SameFamily(st', k, l);
    }
    forall k, l | SameNumber(st', k, l)
      ensures k == l
    {
      assert SameNumber(st, k, l);
    }
  }

  lemma CreateKeepsNumbers(st: Store, v: VersionInput)
    requires Numbered(st)
    ensures Numbered(CreateVersionTx(st, v).0)
  {
    if CanCreateVersion(st, v) {
      var n := NextNumber(st, v.ws, v.kind, v.familyId);
      var key := VersionKey(v.ws, v.kind, v.id);
      AddedNumber(st, CreateVersionTx(st, v).0, key,
                  Version(v.familyId, n, v.provider, Draft, v.config, SecretFor(st, v).0));
    }
  }

  lemma AddedPredecessor(st: Store, st': Store, key: VersionKey, row: Version, k: VersionKey)
    requires Numbered(st) && key !in st.versions && st'.versions == st.versions[key := row]
    requires IsNext(st, key.ws, key.kind, row.familyId, row.number)
    requires k in st'.versions && st'.versions[k].number > 1
    ensures HasPredecessor(st', k)
  {
    if k != key {
      assert HasPredecessor(st, k);
      var l :| l in st.versions && SameFamily(st, k, l) && st.versions[l].number == st.versions[k].number - 1;
      assert SameFamily(st', k, l);
    } else {
      var l :| l in st.versions && l.ws == key.ws && l.kind == key.kind && st.versions[l].familyId == row.familyId
        && st.versions[l].number == row.number - 1;
      assert SameFamily(st', k, l);
    }
  }

  lemma AddedNumber(st: Store, st': Store, key: VersionKey, row: Version)
    requires Numbered(st) && key !in st.versions && st'.versions == st.versions[key := row]
    requires IsNext(st, key.ws, key.kind, row.familyId, row.number)
    ensures Numbered(st')
  {
    forall k | k in st'.versions && st'.versions[k].number > 1
      ensures HasPredecessor(st', k)
    {
      AddedPredecessor(st, st', key, row, k);
    }
    forall k, l | SameNumber(st', k, l)
      ensures k == l
    {
      if k != key && l != key {
        assert SameNumber(st, k, l);
      }
    }
  }
}
