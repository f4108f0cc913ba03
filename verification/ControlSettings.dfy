/** The callers of the control store in backend/internal/controlsettings/service.go that order its
    steps: verifying a profile, and setting a binding. */
module ControlSettings {
  import opened Wrappers
  import opened ControlStore
  import opened ControlRuns
  import opened Resolver

  datatype Outcome = Done(err: Err) | ProbeFailed | MigrationRequired | Crashed

  function EndpointOfVersion(k: VersionKey): EndpointKey {
    EndpointKey(k.ws, k.kind, CustomSource, CustomName(k.id))
  }

  /** `VerifyProfile`, stopping before write number `writes + 1`: the probe, the mark, the endpoint. */
  function VerifyProfile(st: Store, k: VersionKey, probed: bool, writes: nat): (Store, Outcome) {
    if k !in st.versions then (st, Done(NoRows))
    else if !probed then (st, ProbeFailed)
    else if st.versions[k].state != Draft then (st, Done(StateConflict))
    else if writes == 0 then (st, Crashed)
    else
      var marked := VerifyVersion(st, k).0;
      if writes == 1 then (marked, Crashed)
      else
        var (stored, err) := CreateEndpoint(marked, EndpointOfVersion(k), k.id);
        (stored, Done(err))
  }

  /** An undisturbed verification succeeds exactly for a draft whose endpoint name is free, and then the
      version is verified and stands behind its endpoint. */
  lemma VerifyProfileOutcome(st: Store, k: VersionKey, probed: bool, writes: nat)
    requires writes >= 2 && (k in st.versions ==> ValidKind(k.kind))
    ensures var (t, outcome) := VerifyProfile(st, k, probed, writes);
      && (outcome == Done(Ok) <==>
            k in st.versions && probed && st.versions[k].state == Draft && EndpointOfVersion(k) !in st.endpoints)
      && (outcome == Done(Ok) ==>
            t == st.(versions := st.versions[k := st.versions[k].(state := Verified)],
                     endpoints := st.endpoints[EndpointOfVersion(k) := k.id]))
  {
  }

  /** A verification that stops between its two writes leaves a verified version without an endpoint,
      and no later verification of it ever succeeds, whatever else happens: the mark needs a draft. */
  lemma InterruptedVerificationNeverSucceeds(s: State, k: VersionKey, ops: seq<Op>, probed: bool, writes: nat)
    requires Inv(s) && k in s.store.versions && s.store.versions[k].state == Draft
    requires IsRun(State(VerifyProfile(s.store, k, true, 1).0, s.pending), ops)
    ensures var t := VerifyProfile(s.store, k, true, 1).0;
      t.versions[k].state == Verified && t.endpoints == s.store.endpoints
      && VerifyProfile(Run(State(t, s.pending), ops).store, k, probed, writes).1 != Done(Ok)
  {
    hide Inv, Step, Run, IsRun;
    var t := VerifyProfile(s.store, k, true, 1).0;
    MarkIsStep(s, k);
    StepInv(s, VerifyOp(k));
    StoreGrows(State(t, s.pending), ops);
    var later := Run(State(t, s.pending), ops).store;
    assert k in later.versions && later.versions[k].state != Draft;
  }

  lemma MarkIsStep(s: State, k: VersionKey)
    requires k in s.store.versions && s.store.versions[k].state == Draft
    ensures Step(s, VerifyOp(k)) == State(VerifyProfile(s.store, k, true, 1).0, s.pending)
  {
  }

  datatype BindingRequest = BindingRequest(mode: Mode, endpointId: string, expectedRevision: int,
                                           expectedRuntimeRevision: int)

  /** `Service.SetBinding`: the source is looked up by the name of the endpoint. */
  function SetServiceBinding(st: Store, user: string, ws: string, kind: Kind, r: BindingRequest, prefer: Source)
    : (Store, Outcome)
  {
    if kind == DataStore then (st, MigrationRequired)
    else
      var known := SelectedEndpoint(st, ws, kind, r.endpointId, prefer);
      if r.endpointId != "" && known.None? then (st, Done(NoRows))
      else
        var source := if r.endpointId == "" then NoSource else known.value.source;
        var (t, err) := SetBindingTx(st, BindingInput(ws, kind, r.mode, source, r.endpointId, "", r.expectedRevision,
                                                      r.expectedRuntimeRevision, user));
        (t, Done(err))
  }

  /** The row the database prefers decides nothing. */
  lemma BindingIgnoresPreference(s: State, user: string, ws: string, kind: Kind, r: BindingRequest,
                                 prefer: Source, prefer': Source)
    requires Inv(s)
    ensures SetServiceBinding(s.store, user, ws, kind, r, prefer)
      == SetServiceBinding(s.store, user, ws, kind, r, prefer')
  {
    hide Inv, SelectedEndpoint, SetBindingTx;
    SelectionIsUnambiguous(s, ws, kind, r.endpointId, prefer, prefer');
  }

  /** The service never moves the data store, and a binding it sets names a stored endpoint of the
      source its mode asks for, or none. */
  lemma ServiceBindsStoredEndpoints(st: Store, user: string, ws: string, kind: Kind, r: BindingRequest, prefer: Source)
    requires BindingsOk(st)
    ensures var (t, outcome) := SetServiceBinding(st, user, ws, kind, r, prefer); var k := BindingKey(ws, kind);
      && (outcome != Done(Ok) ==> t == st)
      && (outcome == Done(Ok) ==> kind != DataStore && Advances(st, t, ws, kind) && BindingsOk(t))
      && (outcome == Done(Ok) ==> BoundAsAsked(t, ws, kind, r))
      && (BindingKey(ws, DataStore) in st.bindings ==>
            && BindingKey(ws, DataStore) in t.bindings
            && t.bindings[BindingKey(ws, DataStore)] == st.bindings[BindingKey(ws, DataStore)])
  {
    hide BindingsOk, SetBindingTx, SelectedEndpoint;
    if kind != DataStore {
      var known := SelectedEndpoint(st, ws, kind, r.endpointId, prefer);
      if r.endpointId == "" || known.Some? {
        var source := if r.endpointId == "" then NoSource else known.value.source;
        var b := BindingInput(ws, kind, r.mode, source, r.endpointId, "", r.expectedRevision,
                              r.expectedRuntimeRevision, user);
        SetBindingAdvances(st, b);
        if SetBindingTx(st, b).1 == Ok {
          BoundRows(SetBindingTx(st, b).0, ws, kind);
        }
      }
    }
  }

  /** The mode goes with the endpoint named: a stored one of the workspace, the system's for the default and
      the workspace's own for a custom one, and none for the others. */
  predicate ModeFits(st: Store, ws: string, kind: Kind, r: BindingRequest) {
    match r.mode
    case Default => r.endpointId != "" && EndpointKey(ws, kind, SystemSource, r.endpointId) in st.endpoints
    case Custom => r.endpointId != "" && EndpointKey(ws, kind, CustomSource, r.endpointId) in st.endpoints
    case Disabled => (kind == LlmChat || kind == LlmTranscription) && r.endpointId == ""
    case ReuseChat => kind == LlmTranscription && r.endpointId == ""
    case OtherMode(_) => false
  }

  /** The service binds exactly for an idle, active workspace under both of its revisions. */
  lemma ServiceBindingSucceedsIff(s: State, user: string, ws: string, kind: Kind, r: BindingRequest, prefer: Source)
    requires Inv(s)
    ensures var st := s.store;
      SetServiceBinding(st, user, ws, kind, r, prefer).1 == Done(Ok) <==>
        && ws != "" && user != "" && kind in {ObjectS3, LlmChat, LlmTranscription}
        && ws in st.runtime && st.runtime[ws].mode == Active && st.runtime[ws].operation == None
        && r.expectedRuntimeRevision == st.runtime[ws].bindingRevision && r.expectedRuntimeRevision > 0
        && BindingKey(ws, kind) in st.bindings && r.expectedRevision == st.bindings[BindingKey(ws, kind)].revision
        && ModeFits(st, ws, kind, r)
  {
    hide Inv, SetBindingTx, SelectedEndpoint, EndpointFits, ModeFits;
    PartsOfInv(s);
    SourceFits(s, user, ws, kind, r, prefer);
    var known := SelectedEndpoint(s.store, ws, kind, r.endpointId, prefer);
    if r.endpointId == "" || known.Some? {
      var source := if r.endpointId == "" then NoSource else known.value.source;
      SetBindingSucceedsIff(s.store, BindingInput(ws, kind, r.mode, source, r.endpointId, "", r.expectedRevision,
                                                  r.expectedRuntimeRevision, user));
    }
  }

  /** The source that is looked up fits exactly the modes that go with the endpoint. */
  lemma SourceFits(s: State, user: string, ws: string, kind: Kind, r: BindingRequest, prefer: Source)
    requires Inv(s)
    ensures var known := SelectedEndpoint(s.store, ws, kind, r.endpointId, prefer);
      if r.endpointId != "" && known.None? then !ModeFits(s.store, ws, kind, r)
      else
        var source := if r.endpointId == "" then NoSource else known.value.source;
        ModeFits(s.store, ws, kind, r) <==>
          EndpointFits(s.store, BindingInput(ws, kind, r.mode, source, r.endpointId, "", r.expectedRevision,
                                             r.expectedRuntimeRevision, user))
  {
    hide Inv;
    NoNameIsShared(s, ws, kind, r.endpointId);
  }

  /** The binding has the mode asked for, and an endpoint exactly when the request names one. */
  predicate BoundAsAsked(st: Store, ws: string, kind: Kind, r: BindingRequest) {
    var k := BindingKey(ws, kind);
    && k in st.bindings && st.bindings[k].mode == r.mode && st.bindings[k].endpointId == r.endpointId
    && BindingCheck(kind, r.mode, st.bindings[k].source)
    && BindingRefers(st, ws, kind, st.bindings[k].source, r.endpointId)
  }

  lemma BoundRows(st: Store, ws: string, kind: Kind)
    requires BindingsOk(st) && BindingKey(ws, kind) in st.bindings
    ensures var b := st.bindings[BindingKey(ws, kind)];
      BindingCheck(kind, b.mode, b.source) && BindingRefers(st, ws, kind, b.source, b.endpointId)
  {
    hide Total;
    assert RowOk(st, BindingKey(ws, kind), st.bindings[BindingKey(ws, kind)]);
  }
}
