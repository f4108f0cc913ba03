/** Exactly when the calls on the control store succeed and what they leave, table by table, and what a new
    workspace gets from the specifications a server started with. */
module ControlOutcomes {
  import opened Wrappers
  import opened ControlStore
  import opened ControlRuns
  import opened ControlDefaults
  import Resolver

  // ---------------------------------------------------------------- names

  /** The names of endpoints. */
  lemma EndpointNames(versionId: string)
    ensures CustomName(versionId) == "custom-" + versionId
    ensures SystemName(DataStore, versionId) == "system-data_store-" + versionId
    ensures SystemName(ObjectS3, versionId) == "system-object_s3-" + versionId
    ensures SystemName(LlmChat, versionId) == "system-llm_chat-" + versionId
    ensures SystemName(LlmTranscription, versionId) == "system-llm_transcription-" + versionId
  {
    assert "system-" + "data_store" + "-" == "system-data_store-";
    assert "system-" + "object_s3" + "-" == "system-object_s3-";
    assert "system-" + "llm_chat" + "-" == "system-llm_chat-";
    assert "system-" + "llm_transcription" + "-" == "system-llm_transcription-";
  }

  // ---------------------------------------------------------------- families and versions

  /** A family is there after the call exactly if its name belongs to no family of another kind, and it is
      new only under a complete name of a known kind. */
  lemma FamilyOutcome(st: Store, k: FamilyKey, name: string, actor: string)
    ensures var (t, err) := EnsureFamily(st, k, name, actor);
      && (err == Ok <==>
            && (forall f :: f in st.families && f.ws == k.ws && f.id == k.id ==> f.kind == k.kind)
            && (k in st.families || (k.ws != "" && k.id != "" && name != "" && actor != "" && !k.kind.OtherKind?)))
      && t == st.(families := if err == Ok then st.families + {k} else st.families)
  {
    if k in st.families {
      assert st.families + {k} == st.families;
    }
    forall f | f in st.families && f.ws == k.ws && f.id == k.id && f.kind == k.kind
      ensures f == k
    {
    }
  }

  /** The secret a version is stored with: its own, or the one of the version it preserves. */
  predicate StoredSecret(st: Store, v: VersionInput, secret: string) {
    if v.preserveFrom == "" then secret == v.secret
    else
      var from := VersionKey(v.ws, v.kind, v.preserveFrom);
      v.secret == "" && from in st.versions && st.versions[from].secret == secret && secret != ""
  }

  /** A version is created exactly under a free name in a stored family, from complete parts; it is a draft
      with the next number of the family. */
  lemma VersionOutcome(st: Store, v: VersionInput)
    ensures var (t, err) := CreateVersionTx(st, v); var k := VersionKey(v.ws, v.kind, v.id);
      && (err == Ok <==>
            && v.id != "" && v.provider != "" && v.createdBy != "" && v.ws != "" && v.familyId != ""
            && !v.kind.OtherKind? && v.config.Json? && k !in st.versions
            && FamilyKey(v.ws, v.kind, v.familyId) in st.families && exists secret :: StoredSecret(st, v, secret))
      && (err != Ok ==> t == st)
      && (err == Ok ==>
            && t == st.(versions := st.versions[k := t.versions[k]])
            && t.versions[k] == Version(v.familyId, t.versions[k].number, v.provider, Draft, v.config,
                                        t.versions[k].secret)
            && StoredSecret(st, v, t.versions[k].secret) && IsNext(st, v.ws, v.kind, v.familyId, t.versions[k].number))
  {
    hide IsNext;
    var from := VersionKey(v.ws, v.kind, v.preserveFrom);
    if v.preserveFrom == "" {
      assert StoredSecret(st, v, v.secret);
    } else if from in st.versions && v.secret == "" && st.versions[from].secret != "" {
      assert StoredSecret(st, v, st.versions[from].secret);
    }
  }

  /** All parts of a specification are there. */
  predicate CompleteSpec(c: SystemSpec) {
    && c.candidateId != "" && c.familyId != "" && c.name != "" && c.provider != "" && c.config.Json?
    && (c.kind == DataStore || c.kind == ObjectS3 || c.kind == LlmChat || c.kind == LlmTranscription)
  }

  lemma CompleteIsValid(c: SystemSpec)
    ensures ValidCandidate(c) <==> CompleteSpec(c)
  {
  }

  // ---------------------------------------------------------------- bindings

  /** Settings that are not sent are empty ones. */
  lemma BindingRow(st: Store, b: BindingInput)
    requires BindingsOk(st) && SetBindingTx(st, b).1 == Ok
    ensures SetBindingTx(st, b).0.bindings[BindingKey(b.ws, b.kind)]
      == Binding(b.mode, b.source, b.endpointId, if b.settings == "" then "{}" else b.settings, b.expectedRevision + 1)
  {
    hide BindingsOk, SetBindingTx;
    SetBindingAdvances(st, b);
  }

  /** The request contradicts itself, whatever is stored: parts are missing, the service does not know the
      mode, or the endpoint is not the one its mode is about. */
  predicate Contradicts(b: BindingInput) {
    || b.ws == "" || b.actor == "" || b.expectedRuntimeRevision <= 0 || b.kind.OtherKind? || b.mode.OtherMode?
    || (b.mode == Disabled && b.kind in {DataStore, ObjectS3}) || (b.mode == ReuseChat && b.kind != LlmTranscription)
    || (b.mode in {Disabled, ReuseChat} && (b.source != NoSource || b.endpointId != ""))
    || (b.mode in {Default, Custom} && b.endpointId == "")
    || (b.mode == Default && b.source != SystemSource) || (b.mode == Custom && b.source != CustomSource)
  }

  /** Exactly such requests are refused as invalid. */
  lemma BindingInvalidIff(st: Store, b: BindingInput)
    ensures SetBindingTx(st, b).1 == Invalid <==> Contradicts(b)
  {
  }

  // ---------------------------------------------------------------- storage operations

  /** What one step may do to the runtime row of a workspace, and which call does it. */
  predicate RuntimeMoves(row: Runtime, row': Runtime, op: Op, ws: string) {
    match op
    case BindOp(b) => b.ws == ws && row.mode == Active && row.operation == None
      && b.expectedRuntimeRevision == row.bindingRevision && row' == row.(bindingRevision := row.bindingRevision + 1)
    case BeginOp(w, expected, operation) => w == ws && row.mode == Active && row.operation == None
      && expected == row.bindingRevision && row' == Runtime(Draining, row.epoch + 1, expected, Some(operation))
    case TransitionOp(w, operation, epoch, from, to) =>
      w == ws && row == Runtime(from, epoch, row.bindingRevision, Some(operation)) && row' == row.(mode := to)
      && ((from == Draining && to == Migrating) || (from == Migrating && to == Activating))
    case ActivateOp(a) =>
      && a.ws == ws && row == Runtime(Activating, a.epoch, a.expectedRuntimeRevision, Some(a.operation))
      && row' == Runtime(Active, a.epoch, a.expectedRuntimeRevision + 1, None)
    case AdvanceOp(w, epoch, expected) => w == ws && row == Runtime(Active, epoch, expected, None)
      && row' == row.(epoch := epoch + 1)
    case _ => false
  }

  lemma BindMoves(st: Store, b: BindingInput, ws: string)
    requires ws in st.runtime
    ensures var t := SetBindingTx(st, b).0;
      ws in t.runtime && (t.runtime[ws] == st.runtime[ws] || RuntimeMoves(st.runtime[ws], t.runtime[ws], BindOp(b), ws))
  {
    hide BindingCheck, ValidBindingInput, BindingRefers;
  }

  lemma ActivateMoves(st: Store, a: Activation, ws: string)
    requires ws in st.runtime
    ensures var t := ActivateBinding(st, a).0;
      && ws in t.runtime
      && (t.runtime[ws] == st.runtime[ws] || RuntimeMoves(st.runtime[ws], t.runtime[ws], ActivateOp(a), ws))
  {
    hide BindingCheck, BindingRefers;
  }

  lemma OperationMoves(s: State, op: Op, ws: string)
    requires ws in s.store.runtime && (op.BeginOp? || op.TransitionOp? || op.AdvanceOp?)
    ensures ws in Step(s, op).store.runtime
    ensures var row, row' := s.store.runtime[ws], Step(s, op).store.runtime[ws];
      row' == row || RuntimeMoves(row, row', op, ws)
  {
  }

  lemma RuntimeStep(s: State, op: Op, ws: string)
    requires ws in s.store.runtime
    ensures ws in Step(s, op).store.runtime
    ensures var row, row' := s.store.runtime[ws], Step(s, op).store.runtime[ws];
      row' == row || RuntimeMoves(row, row', op, ws)
  {
    hide CreateVersionTx, Candidate, Provision, VersionOf, SetBindingTx, ActivateBinding, BeginOperation, Transition,
      AdvanceEpoch, RuntimeMoves;
    if op.BeginOp? || op.TransitionOp? || op.AdvanceOp? {
      OperationMoves(s, op, ws);
    }
    match op
    case BindOp(b) => BindMoves(s.store, b, ws);
    case ActivateOp(a) => ActivateMoves(s.store, a, ws);
    case CreateVersionOp(version) => CreateFrame(s.store, version);
    case CandidateOp(c) => CandidateFrame(s.store, c);
    case ProvisionOp(w, defaults) => ProvisionKeepsRuntime(s.store, w, defaults, ws);
    case _ =>
  }

  lemma ProvisionKeepsRuntime(st: Store, w: string, defaults: seq<DefaultBinding>, ws: string)
    requires ws in st.runtime
    ensures var t := Provision(st, w, defaults).0; ws in t.runtime && t.runtime[ws] == st.runtime[ws]
  {
    hide ProvisionItems, ValidDefaults;
    ItemsKeepVersions(Begun(st, w), w, defaults);
  }

  /** These calls succeed exactly where they move the row so, and move nothing else. */
  lemma OperationOutcome(s: State, op: Op, ws: string)
    requires op.BeginOp? || op.TransitionOp? || op.AdvanceOp?
    requires ws == op.ws
    ensures var t := Step(s, op);
      && t == s.(store := s.store.(runtime := t.store.runtime))
      && (ws !in s.store.runtime ==> t == s)
      && (ws in s.store.runtime ==>
            && t.store.runtime == s.store.runtime[ws := t.store.runtime[ws]]
            && ((exists row :: RuntimeMoves(s.store.runtime[ws], row, op, ws)) ==>
                  RuntimeMoves(s.store.runtime[ws], t.store.runtime[ws], op, ws)))
  {
    if ws in s.store.runtime {
      assert s.store.runtime == s.store.runtime[ws := s.store.runtime[ws]];
    }
  }

  /** The mode of an activation goes with its endpoint, or with none. */
  predicate ActivationFits(st: Store, a: Activation) {
    match a.mode
    case Default => a.source == SystemSource && EndpointKey(a.ws, a.kind, SystemSource, a.endpointId) in st.endpoints
    case Custom => a.source == CustomSource && EndpointKey(a.ws, a.kind, CustomSource, a.endpointId) in st.endpoints
    case Disabled => a.kind == LlmChat || a.kind == LlmTranscription
    case ReuseChat => a.kind == LlmTranscription
    case OtherMode(_) => false
  }

  /** An operation is activated exactly by its own name in its own epoch, under both revisions. */
  lemma ActivationOutcome(st: Store, a: Activation)
    requires BindingsOk(st)
    ensures var (t, err) := ActivateBinding(st, a); var k := BindingKey(a.ws, a.kind);
      && (err == Ok <==>
            && a.ws in st.runtime
            && st.runtime[a.ws] == Runtime(Activating, a.epoch, a.expectedRuntimeRevision, Some(a.operation))
            && k in st.bindings && st.bindings[k].revision == a.expectedRevision && ActivationFits(st, a))
      && (err != Ok ==> t == st)
      && (err == Ok ==>
            var plain := a.mode == Disabled || a.mode == ReuseChat;
            && t.runtime == st.runtime[a.ws := Runtime(Active, a.epoch, a.expectedRuntimeRevision + 1, None)]
            && t.bindings == st.bindings[k := Binding(a.mode, if plain then NoSource else a.source,
                                                      if plain then "" else a.endpointId,
                                                      st.bindings[k].settings, a.expectedRevision + 1)])
  {
    hide Total;
    if BindingKey(a.ws, a.kind) in st.bindings {
      assert RowOk(st, BindingKey(a.ws, a.kind), st.bindings[BindingKey(a.ws, a.kind)]);
    }
  }

  /** Nothing activates the operation in the run. */
  ghost predicate NotActivated(s: State, ops: seq<Op>, ws: string, operation: string)
    decreases |ops|
  {
    |ops| == 0
    || (!(ops[0].ActivateOp? && ops[0].activation.ws == ws && ops[0].activation.operation == operation)
        && NotActivated(Step(s, ops[0]), ops[1..], ws, operation))
  }

  /** A storage operation has the workspace to itself: until it is activated, in every run, the workspace
      stays in the operation and its epoch, and no service is bound. */
  lemma {:induction false} OperationHolds(s: State, ops: seq<Op>, ws: string, operation: string)
    requires Inv(s) && IsRun(s, ops) && ws in s.store.runtime && s.store.runtime[ws].operation == Some(operation)
    requires NotActivated(s, ops, ws, operation)
    ensures var t := Run(s, ops).store;
      && ws in t.runtime && t.runtime[ws].operation == Some(operation)
      && t.runtime[ws].epoch == s.store.runtime[ws].epoch
      && t.runtime[ws].bindingRevision == s.store.runtime[ws].bindingRevision
    decreases |ops|
  {
    hide Step, Inv, Enabled;
    if |ops| > 0 {
      RuntimeStep(s, ops[0], ws);
      StepInv(s, ops[0]);
      OperationHolds(Step(s, ops[0]), ops[1..], ws, operation);
    }
  }

  /** Nor does any service of it move meanwhile. */
  lemma OperationIsExclusive(s: State, ops: seq<Op>, ws: string, operation: string)
    requires Inv(s) && IsRun(s, ops) && ws in s.store.runtime && s.store.runtime[ws].operation == Some(operation)
    requires NotActivated(s, ops, ws, operation)
    ensures SameBindings(s.store, Run(s, ops).store, ws)
  {
    hide Inv, IsRun, Run, NotActivated, SameBindings;
    OperationHolds(s, ops, ws, operation);
    RevisionDeterminesBindings(s, ops, ws);
  }

  // ---------------------------------------------------------------- a new workspace

  /** The binding a default asks for. */
  function DefaultRow(item: DefaultBinding): Binding {
    if item.mode == Default then Binding(Default, SystemSource, item.endpointId, "{}", 1)
    else Binding(item.mode, NoSource, "", "{}", 1)
  }

  lemma {:induction false} ItemsKeepBindings(s: Store, ws: string, items: seq<DefaultBinding>, k: BindingKey)
    requires ProvisionItems(s, ws, items).Some? && k in s.bindings
    ensures var t := ProvisionItems(s, ws, items).value; k in t.bindings && t.bindings[k] == s.bindings[k]
    decreases |items|
  {
    if |items| > 0 {
      ItemsKeepBindings(ProvisionItem(s, ws, items[0]).value, ws, items[1..], k);
    }
  }

  lemma {:induction false} ItemsBind(s: Store, ws: string, items: seq<DefaultBinding>, i: nat)
    requires forall p, q :: 0 <= p < q < |items| ==> items[p].kind != items[q].kind
    requires i < |items| && ProvisionItems(s, ws, items).Some? && BindingKey(ws, items[i].kind) !in s.bindings
    ensures var t := ProvisionItems(s, ws, items).value; var k := BindingKey(ws, items[i].kind);
      k in t.bindings && t.bindings[k] == DefaultRow(items[i])
    decreases |items|
  {
    var u := ProvisionItem(s, ws, items[0]).value;
    if i == 0 {
      ItemsKeepBindings(u, ws, items[1..], BindingKey(ws, items[0].kind));
    } else {
      assert items[0].kind != items[i].kind;
      ItemsBind(u, ws, items[1..], i - 1);
    }
  }

  /** A new workspace is bound to what the defaults say. */
  lemma NewWorkspaceIsBound(st: Store, ws: string, items: seq<DefaultBinding>, i: nat)
    requires BindingsOk(st) && ws !in st.runtime && Provision(st, ws, items).1 == Ok && i < |items|
    ensures var t := Provision(st, ws, items).0; var k := BindingKey(ws, items[i].kind);
      ws in t.runtime && k in t.bindings && t.bindings[k] == DefaultRow(items[i])
  {
    hide ProvisionItems, Total, RowOk, ValidDefaultMode;
    ProvisionSucceedsIff(st, ws, items);
    assert ValidDefaultMode(items[i].kind, items[i].mode);
    DefaultKind(items[i]);
    ItemsBind(Begun(st, ws), ws, items, i);
  }

  /** The default of a service: storage is always on, a language model may be off. */
  predicate AllowedDefault(item: DefaultBinding) {
    && item.endpointId != "" && item.versionId != ""
    && (((item.kind == DataStore || item.kind == ObjectS3) && item.mode == Default)
        || ((item.kind == LlmChat || item.kind == LlmTranscription) && (item.mode == Default || item.mode == Disabled)))
  }

  /** One allowed default for each of the four services. */
  predicate DefaultsForAll(items: seq<DefaultBinding>) {
    && |items| == 4
    && AllowedDefault(items[0]) && AllowedDefault(items[1]) && AllowedDefault(items[2]) && AllowedDefault(items[3])
    && {items[0].kind, items[1].kind, items[2].kind, items[3].kind}
       == {DataStore, ObjectS3, LlmChat, LlmTranscription}
  }

  /** A workspace is provisioned exactly with a storable default for each service. */
  lemma ProvisionAccepts(st: Store, ws: string, items: seq<DefaultBinding>)
    ensures Provision(st, ws, items).1 == Ok <==>
      ws != "" && DefaultsForAll(items) && forall i :: 0 <= i < |items| ==> CanStore(st, ws, items[i])
  {
    hide Provision, CanStore, DefaultsForAll, ValidDefaults;
    ProvisionSucceedsIff(st, ws, items);
    DefaultsSay(items);
  }

  lemma DefaultsSay(items: seq<DefaultBinding>)
    ensures ValidDefaults(items) <==> DefaultsForAll(items)
  {
    if |items| == 4 {
      hide AllowedDefault, ValidDefaultMode;
      var (a, b, c, d) := (items[0], items[1], items[2], items[3]);
      DefaultSays(a);
      DefaultSays(b);
      DefaultSays(c);
      DefaultSays(d);
      if AllowedDefault(a) && AllowedDefault(b) && AllowedDefault(c) && AllowedDefault(d) {
        FourKinds(a.kind, b.kind, c.kind, d.kind);
      }
      assert (forall i, j :: 0 <= i < j < 4 ==> items[i].kind != items[j].kind) <==>
        a.kind != b.kind && a.kind != c.kind && a.kind != d.kind && b.kind != c.kind && b.kind != d.kind
        && c.kind != d.kind;
    }
  }

  lemma DefaultSays(item: DefaultBinding)
    ensures AllowedDefault(item) <==>
      item.endpointId != "" && item.versionId != "" && ValidDefaultMode(item.kind, item.mode)
    ensures AllowedDefault(item) ==> !item.kind.OtherKind?
  {
  }

  /** Four services are all services exactly if they are different. */
  lemma FourKinds(a: Kind, b: Kind, c: Kind, d: Kind)
    requires !a.OtherKind? && !b.OtherKind? && !c.OtherKind? && !d.OtherKind?
    ensures a != b && a != c && a != d && b != c && b != d && c != d <==>
      {a, b, c, d} == {DataStore, ObjectS3, LlmChat, LlmTranscription}
  {
    var all := {DataStore, ObjectS3, LlmChat, LlmTranscription};
    if all == {a, b, c, d} {
      assert DataStore in all && ObjectS3 in all && LlmChat in all && LlmTranscription in all;
    }
  }

  lemma DefaultKind(item: DefaultBinding)
    requires ValidDefaultMode(item.kind, item.mode)
    ensures ValidKind(item.kind) && (item.mode == Default || item.mode == Disabled)
  {
  }

  lemma SystemNameOf(kind: Kind, a: string, b: string)
    requires SystemName(kind, a) == SystemName(kind, b)
    ensures a == b
  {
    var prefix := "system-" + KindName(kind) + "-";
    assert (prefix + a)[|prefix|..] == a && (prefix + b)[|prefix|..] == b;
  }

  lemma EndpointVersion(s: State, k: EndpointKey, versionId: string)
    requires Inv(s) && k in s.store.endpoints && k.source == SystemSource && k.id == SystemName(k.kind, versionId)
    ensures s.store.endpoints[k] == versionId
  {
    hide UniqueSystemNumbers, BindingsOk, Usable, SystemName;
    assert EndpointOk(s.store, k, s.store.endpoints[k]);
    SystemNameOf(k.kind, s.store.endpoints[k], versionId);
  }

  lemma AnswerSays(st: Store, c: SystemSpec, item: DefaultBinding)
    requires Answers(st, c, item)
    ensures item == DefaultBinding(c.kind, c.mode, SystemName(c.kind, item.versionId), item.versionId)
    ensures var k := SystemKey(c.kind, item.versionId);
      && k in st.systemVersions && st.systemVersions[k].provider == c.provider
      && st.systemVersions[k].config == c.config && st.systemVersions[k].secret == c.secret
  {
    hide SystemName;
  }

  lemma GrownVersion(st: Store, st': Store, k: SystemKey)
    requires VersionsGrow(st, st') && k in st.systemVersions
    ensures k in st'.systemVersions && SameProfile(st.systemVersions[k], st'.systemVersions[k])
  {
  }

  /** A workspace bound to the default chat of a stored system version resolves to that version. */
  lemma DefaultChatResolves(s: State, ws: string, item: DefaultBinding, v: Version, prefer: Source)
    requires Inv(s) && ws in s.store.runtime && item.kind == LlmChat
    requires item.endpointId == SystemName(LlmChat, item.versionId)
    requires BindingKey(ws, LlmChat) in s.store.bindings
    requires s.store.bindings[BindingKey(ws, LlmChat)] == DefaultRow(item)
    requires SystemKey(LlmChat, item.versionId) in s.store.systemVersions
    requires v == s.store.systemVersions[SystemKey(LlmChat, item.versionId)]
    ensures var r := Resolver.ResolveChat(s.store, ws, prefer);
      && (item.mode == Disabled ==> r == Resolver.CapabilityDisabled)
      && (item.mode == Default && Resolver.Readable(v) ==>
            r == Resolver.Resolved(Resolver.Capability(
                   Default, false, "system-llm_chat-" + item.versionId, item.versionId, v.provider,
                   v.config.model.value, v.config, v.secret)))
  {
    hide Inv, Resolver.ResolveChat, SystemName;
    Resolver.ChatResolves(s, ws, prefer);
    EndpointNames(item.versionId);
    if item.mode == Default {
      EndpointVersion(s, EndpointKey(ws, LlmChat, SystemSource, item.endpointId), item.versionId);
    }
  }

  /** Once a server has started with its specifications, a new workspace can use the chat they describe, at
      any later time and whatever row the database prefers, or has it switched off as they say. */
  lemma NewWorkspaceChats(s: State, specs: seq<SystemSpec>, ops: seq<Op>, ws: string, i: nat, prefer: Source)
    requires Inv(s) && Reconcile(s.store, specs).2 == Ok && ws != ""
    requires IsRun(State(Reconcile(s.store, specs).0, s.pending), ops)
    requires var (t, _, _) := Reconcile(s.store, specs); ws !in Run(State(t, s.pending), ops).store.runtime
    requires |specs| == 4 && i < 4 && specs[i].kind == LlmChat
    ensures var (t, items, _) := Reconcile(s.store, specs); var u := Run(State(t, s.pending), ops).store;
      |items| == 4
      && var r := Resolver.ResolveChat(Provision(u, ws, items).0, ws, prefer); var c := specs[i];
      if c.mode == Disabled then r == Resolver.CapabilityDisabled
      else c.config.Json? && (c.config.model.Some? ==>
             r == Resolver.Resolved(Resolver.Capability(
                    Default, false, "system-llm_chat-" + items[i].versionId, items[i].versionId, c.provider,
                    c.config.model.value, c.config, c.secret)))
  {
    hide Inv, Reconcile, IsRun, Run, Provision, Resolver.ResolveChat, Answers, CanReconcile, VersionsGrow, SystemName,
      Reconciled;
    var (t, items, _) := Reconcile(s.store, specs);
    var x := State(t, s.pending);
    var u := Run(x, ops);
    ReconcileReturns(s, specs);
    SpecComplete(s, specs, i);
    LaterProvisioning(s, specs, ops, ws);
    assert Answers(t, specs[i], items[i]);
    AnswerSays(t, specs[i], items[i]);
    var k := SystemKey(LlmChat, items[i].versionId);
    StoreGrows(x, ops);
    GrownVersion(t, u.store, k);
    var first := ReconcileIsRun(s, specs, {});
    ReconciledInv(s, specs, first);
    RunInv(x, ops);
    StepInv(u, ProvisionOp(ws, items));
    var v := Step(u, ProvisionOp(ws, items));
    PartsOfInv(u);
    NewWorkspaceIsBound(u.store, ws, items, i);
    ProvisionFrame(u.store, ws, items);
    DefaultChatResolves(v, ws, items[i], v.store.systemVersions[k], prefer);
  }

  lemma SpecComplete(s: State, specs: seq<SystemSpec>, i: nat)
    requires Inv(s) && Reconcile(s.store, specs).2 == Ok && i < |specs|
    ensures CompleteSpec(specs[i]) && ValidDefaultMode(specs[i].kind, specs[i].mode)
  {
    hide EndpointsOk, BindingsOk, UniqueSystemNumbers, Reconcile, ValidDefaultMode;
    ReconcileSucceedsIff(s.store, specs);
    assert CanReconcile(s.store, specs[i]);
    CompleteIsValid(specs[i]);
  }

  lemma ReconciledInv(s: State, specs: seq<SystemSpec>, first: seq<Op>)
    requires Inv(s) && Reconcile(s.store, specs).2 == Ok
    requires IsRun(s, first) && Run(s, first) == s.(store := ReconcileFrom(s.store, specs, {}).0)
    ensures Inv(State(Reconcile(s.store, specs).0, s.pending))
  {
    hide Inv, IsRun, Run, ReconcileFrom;
    RunInv(s, first);
  }
}
