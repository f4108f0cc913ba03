/** The device-flow poll of backend/internal/codexsubscription/service.go: up to six durable writes,
    between any two of which the process may stop, and which a later poll picks up. */
module CodexPoll {
  import opened Wrappers
  import opened ControlStore
  import ControlRuns
  import Resolver

  datatype FlowState = Pending | Authorized | Expired | Failed

  datatype Flow = Flow(ws: string, user: string, expiresAt: int, state: FlowState)

  datatype World = World(store: Store, flows: map<string, Flow>)

  /** What the authorization server answers. */
  datatype Reply = Granted | NotYet | Refused

  /** A request, with what it meets: the time, the server's answer, the tokens of a granted one, and the
      row the database prefers. */
  datatype Request = Request(user: string, ws: string, flowId: string, expectedRevision: int,
                             expectedRuntimeRevision: int, now: int, reply: Reply, tokens: string, prefer: Source)

  datatype Outcome = Connected | Status(state: FlowState) | Error | Crashed

  // ---------------------------------------------------------------- the names of a flow

  const CONFIG: Config :=
    Json("{\"api_mode\":\"codex_responses\",\"auth_mode\":\"chatgpt\","
         + "\"endpoint\":\"https://chatgpt.com/backend-api/codex\",\"model\":\"gpt-5.3-codex\"}",
         Some("gpt-5.3-codex"))

  function FamilyOf(p: Request): FamilyKey {
    FamilyKey(p.ws, LlmChat, "codex-subscription-" + p.flowId)
  }

  function VersionKeyOf(p: Request): VersionKey {
    VersionKey(p.ws, LlmChat, "codex-" + p.flowId)
  }

  function EndpointKeyOf(p: Request): EndpointKey {
    EndpointKey(p.ws, LlmChat, CustomSource, CustomName(VersionKeyOf(p).id))
  }

  function VersionInputOf(p: Request): VersionInput {
    VersionInput(VersionKeyOf(p).id, FamilyOf(p).id, p.ws, LlmChat, "openai_codex_subscription", CONFIG, p.tokens, "",
                 p.user)
  }

  function BindingInputOf(p: Request): BindingInput {
    BindingInput(p.ws, LlmChat, Custom, CustomSource, EndpointKeyOf(p).id, "", p.expectedRevision,
                 p.expectedRuntimeRevision, p.user)
  }

  predicate OnEndpoint(st: Store, p: Request) {
    BindingKey(p.ws, LlmChat) in st.bindings && st.bindings[BindingKey(p.ws, LlmChat)].mode == Custom
    && st.bindings[BindingKey(p.ws, LlmChat)].endpointId == EndpointKeyOf(p).id
  }

  // ---------------------------------------------------------------- the steps

  /** A poll on its way, with the number of writes it still gets to make, or stopped. */
  datatype Progress =
    | Going(store: Store, writes: nat)
    | Stopped(store: Store, outcome: Outcome)

  /** A write that may fail, and before which the process may stop. */
  function Write(before: Store, result: (Store, Err), writes: nat): Progress {
    if result.1 != Ok then Stopped(before, Error)
    else if writes == 0 then Stopped(before, Crashed)
    else Going(result.0, writes - 1)
  }

  function FamilyStep(st: Store, p: Request, n: nat): Progress {
    var result := EnsureFamily(st, FamilyOf(p), "Codex", p.user);
    if result.1 == Ok && result.0 == st then Going(st, n) else Write(st, result, n)
  }

  ghost function VersionStep(st: Store, p: Request, n: nat): Progress {
    if VersionKeyOf(p) in st.versions then Going(st, n) else Write(st, CreateVersionTx(st, VersionInputOf(p)), n)
  }

  function VerifyStep(st: Store, p: Request, n: nat): Progress {
    if VersionKeyOf(p) in st.versions && st.versions[VersionKeyOf(p)].state == Draft then
      Write(st, VerifyVersion(st, VersionKeyOf(p)), n)
    else Going(st, n)
  }

  /** `ensureEndpoint` */
  function EndpointStep(st: Store, p: Request, n: nat): Progress {
    match Resolver.SelectedEndpoint(st, p.ws, LlmChat, EndpointKeyOf(p).id, p.prefer)
    case Some(k) => if k.source != CustomSource then Stopped(st, Error) else Going(st, n)
    case None => Write(st, CreateEndpoint(st, EndpointKeyOf(p), VersionKeyOf(p).id), n)
  }

  function BindingStep(st: Store, p: Request, n: nat): Progress {
    if OnEndpoint(st, p) then Going(st, n) else Write(st, SetBindingTx(st, BindingInputOf(p)), n)
  }

  /** The writes before the flow itself is completed. */
  ghost function Prepare(st: Store, p: Request, n: nat): Progress {
    var a := FamilyStep(st, p, n);
    if a.Stopped? then a
    else
      var b := VersionStep(a.store, p, a.writes);
      if b.Stopped? then b
      else
        var c := VerifyStep(b.store, p, b.writes);
        if c.Stopped? then c
        else
          var d := EndpointStep(c.store, p, c.writes);
          if d.Stopped? then d else BindingStep(d.store, p, d.writes)
  }

  predicate OwnsFlow(w: World, p: Request) {
    p.flowId in w.flows && w.flows[p.flowId].ws == p.ws && w.flows[p.flowId].user == p.user
  }

  /** `Poll`, stopping before write number `n + 1`. */
  ghost function Polled(w: World, p: Request, n: nat): (World, Outcome) {
    if !OwnsFlow(w, p) then (w, Error)
    else
      var flow := w.flows[p.flowId];
      if flow.state == Authorized then (w, Connected)
      else if flow.state != Pending then (w, Status(flow.state))
      else if p.now >= flow.expiresAt then
        (if n == 0 then (w, Crashed) else (w.(flows := w.flows[p.flowId := flow.(state := Expired)]), Status(Expired)))
      else match p.reply
        case NotYet => (w, Status(Pending))
        case Refused => (w, Error)
        case Granted =>
          match Prepare(w.store, p, n)
          case Stopped(st, outcome) => (w.(store := st), outcome)
          case Going(st, writes) =>
            if writes == 0 then (w.(store := st), Crashed)
            else (World(st, w.flows[p.flowId := flow.(state := Authorized)]), Connected)
  }

  // ---------------------------------------------------------------- when a poll can finish

  /** The invariant of every run of the control store, for a store on its own. */
  ghost predicate Sound(st: Store) {
    ControlRuns.Inv(ControlRuns.State(st, map[]))
  }

  /** The family name of the flow is not taken by a family of another kind. */
  predicate FamilyFree(st: Store, p: Request) {
    forall f :: f in st.families && f.ws == p.ws && f.id == FamilyOf(p).id ==> f.kind == LlmChat
  }

  /** The version was retired before it had an endpoint. */
  predicate Blocked(st: Store, p: Request) {
    && VersionKeyOf(p) in st.versions && st.versions[VersionKeyOf(p)].state == Retired
    && EndpointKeyOf(p) !in st.endpoints
  }

  /** Nothing stands in the way of the endpoint, and the workspace takes bindings or is bound already. */
  predicate Open(st: Store, p: Request) {
    !Blocked(st, p) && (OnEndpoint(st, p) || TakesBindings(st, p.ws))
  }

  predicate TakesBindings(st: Store, ws: string) {
    && ws in st.runtime && st.runtime[ws].mode == Active && st.runtime[ws].operation == None
    && st.runtime[ws].bindingRevision > 0
  }

  /** The revisions of the request are those of the store. */
  predicate Current(st: Store, p: Request) {
    && BindingKey(p.ws, LlmChat) in st.bindings
    && p.expectedRevision == st.bindings[BindingKey(p.ws, LlmChat)].revision
    && p.ws in st.runtime && p.expectedRuntimeRevision == st.runtime[p.ws].bindingRevision
  }

  /** The flow has its version, its endpoint and the chat binding. */
  predicate Settled(st: Store, p: Request) {
    && VersionKeyOf(p) in st.versions && st.versions[VersionKeyOf(p)].state != Draft
    && EndpointKeyOf(p) in st.endpoints && OnEndpoint(st, p)
  }

  // ---------------------------------------------------------------- what a poll may write

  predicate GrowsFamily(st: Store, st': Store, p: Request) {
    st'.families == st.families || st'.families == st.families + {FamilyOf(p)}
  }

  predicate GrowsVersion(st: Store, st': Store, p: Request) {
    var k := VersionKeyOf(p);
    || st'.versions == st.versions
    || (k in st'.versions && st'.versions == st.versions[k := st'.versions[k]] && st'.versions[k].state != Retired
        && (k in st.versions ==> st.versions[k].state == Draft))
  }

  predicate GrowsEndpoint(st: Store, st': Store, p: Request) {
    st'.endpoints == st.endpoints
    || (EndpointKeyOf(p) !in st.endpoints && st'.endpoints == st.endpoints[EndpointKeyOf(p) := VersionKeyOf(p).id])
  }

  predicate GrowsBinding(st: Store, st': Store, p: Request) {
    || (st'.bindings == st.bindings && st'.runtime == st.runtime)
    || (!OnEndpoint(st, p) && OnEndpoint(st', p) && Raised(st, st', p.ws))
  }

  /** The chat binding and the runtime counter move on by one, and no other row of either table. */
  predicate Raised(st: Store, st': Store, ws: string) {
    var k := BindingKey(ws, LlmChat);
    && k in st.bindings && k in st'.bindings && st'.bindings == st.bindings[k := st'.bindings[k]]
    && st'.bindings[k].revision == st.bindings[k].revision + 1
    && ws in st.runtime && ws in st'.runtime
    && st'.runtime == st.runtime[ws := st.runtime[ws].(bindingRevision := st.runtime[ws].bindingRevision + 1)]
  }

  /** The store with some of the rows of the flow added: at most its family, its version, its endpoint
      and one move of the chat binding to it. */
  predicate Extends(st: Store, st': Store, p: Request) {
    GrowsFamily(st, st', p) && GrowsVersion(st, st', p) && GrowsEndpoint(st, st', p) && GrowsBinding(st, st', p)
    && st'.systemVersions == st.systemVersions
  }

  lemma ExtendsTwice(a: Store, b: Store, c: Store, p: Request)
    requires Extends(a, b, p) && Extends(b, c, p)
    ensures Extends(a, c, p)
  {
    assert GrowsFamily(a, c, p);
    assert GrowsVersion(a, c, p);
    assert GrowsEndpoint(a, c, p);
    assert GrowsBinding(a, c, p);
  }

  /** The first four steps write no binding. */
  predicate KeepsBindings(st: Store, st': Store) {
    st'.bindings == st.bindings && st'.runtime == st.runtime
  }

  lemma FamilyExtends(st: Store, p: Request, n: nat)
    ensures var st' := FamilyStep(st, p, n).store; Extends(st, st', p) && KeepsBindings(st, st')
  {
  }

  lemma VersionExtends(st: Store, p: Request, n: nat)
    ensures var st' := VersionStep(st, p, n).store; Extends(st, st', p) && KeepsBindings(st, st')
  {
    hide IsNext;
  }

  lemma VerifyExtends(st: Store, p: Request, n: nat)
    ensures var st' := VerifyStep(st, p, n).store; Extends(st, st', p) && KeepsBindings(st, st')
  {
  }

  lemma EndpointExtends(st: Store, p: Request, n: nat)
    ensures var st' := EndpointStep(st, p, n).store; Extends(st, st', p) && KeepsBindings(st, st')
  {
  }

  lemma BindingExtends(st: Store, p: Request, n: nat)
    requires ControlRuns.BindingsOk(st)
    ensures var st' := BindingStep(st, p, n).store; Extends(st, st', p) && ControlRuns.BindingsOk(st')
  {
    hide ControlRuns.BindingsOk, ControlRuns.RowOk, SetBindingTx, ValidBindingInput;
    ControlRuns.SetBindingAdvances(st, BindingInputOf(p));
    if SetBindingTx(st, BindingInputOf(p)).1 == Ok {
      BoundByTransaction(st, p);
    }
  }

  /** A successful transaction raises both counters and binds the endpoint. */
  lemma BoundByTransaction(st: Store, p: Request)
    requires ControlRuns.BindingsOk(st) && SetBindingTx(st, BindingInputOf(p)).1 == Ok
    ensures var st' := SetBindingTx(st, BindingInputOf(p)).0;
      && Raised(st, st', p.ws) && OnEndpoint(st', p)
      && st'.families == st.families && st'.versions == st.versions && st'.endpoints == st.endpoints
      && st'.systemVersions == st.systemVersions
  {
    hide ControlRuns.BindingsOk, ControlRuns.RowOk, BindingCheck;
    ControlRuns.SetBindingAdvances(st, BindingInputOf(p));
  }

  lemma GrownBindingsOk(st: Store, st': Store, p: Request)
    requires ControlRuns.BindingsOk(st) && KeepsBindings(st, st') && Extends(st, st', p)
    ensures ControlRuns.BindingsOk(st')
  {
    hide ControlRuns.BindingsOk;
    ControlRuns.StayKeeps(st, st');
  }

  /** Two steps after each other. */
  lemma Then(a: Store, b: Store, c: Store, p: Request)
    requires Extends(a, b, p) && Extends(b, c, p) && ControlRuns.BindingsOk(b) && KeepsBindings(b, c)
    ensures Extends(a, c, p) && ControlRuns.BindingsOk(c)
  {
    hide Extends, ControlRuns.BindingsOk;
    ExtendsTwice(a, b, c, p);
    GrownBindingsOk(b, c, p);
  }

  /** A poll leaves behind the store it found and some rows of its flow, wherever it stops. */
  lemma PrepareExtends(st: Store, p: Request, n: nat)
    requires ControlRuns.BindingsOk(st)
    ensures Extends(st, Prepare(st, p, n).store, p) && ControlRuns.BindingsOk(Prepare(st, p, n).store)
  {
    hide Extends, FamilyStep, VersionStep, VerifyStep, EndpointStep, BindingStep, ControlRuns.BindingsOk, KeepsBindings;
    var a := FamilyStep(st, p, n);
    FamilyExtends(st, p, n);
    GrownBindingsOk(st, a.store, p);
    if a.Going? {
      var b := VersionStep(a.store, p, a.writes);
      VersionExtends(a.store, p, a.writes);
      Then(st, a.store, b.store, p);
      if b.Going? {
        var c := VerifyStep(b.store, p, b.writes);
        VerifyExtends(b.store, p, b.writes);
        Then(st, b.store, c.store, p);
        if c.Going? {
          var d := EndpointStep(c.store, p, c.writes);
          EndpointExtends(c.store, p, c.writes);
          Then(st, c.store, d.store, p);
          if d.Going? {
            BindingExtends(d.store, p, d.writes);
            ExtendsTwice(st, d.store, BindingStep(d.store, p, d.writes).store, p);
          }
        }
      }
    }
  }

  // ---------------------------------------------------------------- a poll among the steps of a run

  lemma FamilyKeepsInv(s: ControlRuns.State, p: Request, n: nat)
    requires ControlRuns.Inv(s)
    ensures ControlRuns.Inv(s.(store := FamilyStep(s.store, p, n).store))
  {
    hide ControlRuns.Inv, EnsureFamily;
    ControlRuns.StepInv(s, ControlRuns.FamilyOp(FamilyOf(p), "Codex", p.user));
    assert s.(store := s.store) == s;
  }

  lemma VersionKeepsInv(s: ControlRuns.State, p: Request, n: nat)
    requires ControlRuns.Inv(s)
    ensures ControlRuns.Inv(s.(store := VersionStep(s.store, p, n).store))
  {
    hide ControlRuns.Inv, CreateVersionTx;
    ControlRuns.StepInv(s, ControlRuns.CreateVersionOp(VersionInputOf(p)));
    assert s.(store := s.store) == s;
  }

  lemma VerifyKeepsInv(s: ControlRuns.State, p: Request, n: nat)
    requires ControlRuns.Inv(s)
    ensures ControlRuns.Inv(s.(store := VerifyStep(s.store, p, n).store))
  {
    hide ControlRuns.Inv, VerifyVersion;
    ControlRuns.StepInv(s, ControlRuns.VerifyOp(VersionKeyOf(p)));
    assert s.(store := s.store) == s;
  }

  lemma BindingKeepsInv(s: ControlRuns.State, p: Request, n: nat)
    requires ControlRuns.Inv(s)
    ensures ControlRuns.Inv(s.(store := BindingStep(s.store, p, n).store))
  {
    hide ControlRuns.Inv, SetBindingTx, OnEndpoint;
    ControlRuns.StepInv(s, ControlRuns.BindOp(BindingInputOf(p)));
    assert s.(store := s.store) == s;
  }

  /** The SELECT and the INSERT of `CreateWorkspaceEndpoint` are two steps of a call of its own. */
  lemma EndpointKeepsInv(s: ControlRuns.State, p: Request, n: nat)
    requires ControlRuns.Inv(s)
    ensures ControlRuns.Inv(s.(store := EndpointStep(s.store, p, n).store))
  {
    hide ControlRuns.Inv, CheckEndpoint, InsertEndpoint, Resolver.SelectedEndpoint;
    assert s.(store := s.store) == s;
    var e, versionId := EndpointKeyOf(p), VersionKeyOf(p).id;
    if CheckEndpoint(s.store, e, versionId) == Ok {
      var call := UnusedCall(s.pending.Keys);
      var check, insert := ControlRuns.CheckEndpointOp(call, e, versionId), ControlRuns.InsertEndpointOp(call);
      ControlRuns.StepInv(s, check);
      var t := ControlRuns.Step(s, check);
      ControlRuns.StepInv(t, insert);
      assert t.pending - {call} == s.pending;
      assert ControlRuns.Step(t, insert) == s.(store := InsertEndpoint(s.store, e, versionId).0);
    }
  }

  lemma {:induction false} UnusedCall(used: set<nat>) returns (call: nat)
    ensures call !in used && forall c :: c in used ==> c < call
    decreases |used|
  {
    if used == {} {
      call := 0;
    } else {
      var c :| c in used;
      var other := UnusedCall(used - {c});
      call := if other > c then other else c + 1;
      assert forall d :: d in used ==> d == c || d in used - {c};
    }
  }

  /** A poll keeps the invariant of the control store, wherever it stops and whatever calls are open. */
  lemma PrepareKeepsInv(s: ControlRuns.State, p: Request, n: nat)
    requires ControlRuns.Inv(s)
    ensures ControlRuns.Inv(s.(store := Prepare(s.store, p, n).store))
  {
    hide ControlRuns.Inv, FamilyStep, VersionStep, VerifyStep, EndpointStep, BindingStep;
    FamilyKeepsInv(s, p, n);
    var a := FamilyStep(s.store, p, n);
    if a.Going? {
      VersionKeepsInv(s.(store := a.store), p, a.writes);
      var b := VersionStep(a.store, p, a.writes);
      if b.Going? {
        VerifyKeepsInv(s.(store := b.store), p, b.writes);
        var c := VerifyStep(b.store, p, b.writes);
        if c.Going? {
          EndpointKeepsInv(s.(store := c.store), p, c.writes);
          var d := EndpointStep(c.store, p, c.writes);
          if d.Going? {
            BindingKeepsInv(s.(store := d.store), p, d.writes);
          }
        }
      }
    }
  }

  /** System endpoints have other names. */
  lemma NoSystemTwin(st: Store, p: Request)
    requires Sound(st)
    ensures EndpointKey(p.ws, LlmChat, SystemSource, EndpointKeyOf(p).id) !in st.endpoints
  {
    hide ControlRuns.BindingsOk, UniqueSystemNumbers, ControlRuns.Usable, CustomName, SystemName;
    var twin := EndpointKey(p.ws, LlmChat, SystemSource, EndpointKeyOf(p).id);
    if twin in st.endpoints {
      assert ControlRuns.EndpointOk(st, twin, st.endpoints[twin]);
      ControlRuns.NamesDiffer(LlmChat, VersionKeyOf(p).id, st.endpoints[twin]);
    }
  }

  lemma SoundBindings(st: Store)
    requires Sound(st)
    ensures ControlRuns.BindingsOk(st)
  {
  }

  // ---------------------------------------------------------------- a poll that is not stopped

  lemma FamilyGoes(st: Store, p: Request, n: nat)
    requires FamilyFree(st, p) && n >= 1 && p.ws != "" && p.user != ""
    ensures var r := FamilyStep(st, p, n);
      r.Going? && r.writes >= n - 1 && FamilyOf(p) in r.store.families && r.store == st.(families := r.store.families)
  {
  }

  lemma VersionGoes(st: Store, p: Request, n: nat)
    requires FamilyOf(p) in st.families && n >= 1 && p.ws != "" && p.user != ""
    ensures var r := VersionStep(st, p, n);
      && r.Going? && r.writes >= n - 1 && VersionKeyOf(p) in r.store.versions
      && r.store == st.(versions := r.store.versions)
      && (VersionKeyOf(p) in st.versions ==> r.store == st)
      && (VersionKeyOf(p) !in st.versions ==> r.store.versions[VersionKeyOf(p)].state == Draft)
  {
    hide IsNext;
    NamesNotEmpty(p);
  }

  lemma NamesNotEmpty(p: Request)
    ensures VersionKeyOf(p).id != "" && FamilyOf(p).id != "" && EndpointKeyOf(p).id != ""
  {
    assert |VersionKeyOf(p).id| > 0 && |FamilyOf(p).id| > 0 && |EndpointKeyOf(p).id| > 0;
  }

  lemma VerifyGoes(st: Store, p: Request, n: nat)
    requires VersionKeyOf(p) in st.versions && n >= 1
    ensures var r := VerifyStep(st, p, n);
      && r.Going? && r.writes >= n - 1 && r.store == st.(versions := r.store.versions)
      && VersionKeyOf(p) in r.store.versions && r.store.versions[VersionKeyOf(p)].state != Draft
      && (st.versions[VersionKeyOf(p)].state == Retired <==> r.store.versions[VersionKeyOf(p)].state == Retired)
  {
  }

  /** The endpoint step fails exactly for a version retired before its endpoint was made. */
  lemma EndpointGoes(st: Store, p: Request, n: nat)
    requires VersionKeyOf(p) in st.versions && st.versions[VersionKeyOf(p)].state != Draft && n >= 1
    requires EndpointKey(p.ws, LlmChat, SystemSource, EndpointKeyOf(p).id) !in st.endpoints
    ensures var r := EndpointStep(st, p, n);
      if Blocked(st, p) then r == Stopped(st, Error)
      else
        && r.Going? && r.writes >= n - 1 && EndpointKeyOf(p) in r.store.endpoints
        && r.store == st.(endpoints := r.store.endpoints)
  {
  }

  /** The binding step fails exactly when the workspace takes no bindings. */
  lemma BindingGoes(st: Store, p: Request, n: nat)
    requires ControlRuns.BindingsOk(st) && EndpointKeyOf(p) in st.endpoints && n >= 1 && p.ws != "" && p.user != ""
    requires Current(st, p)
    ensures var r := BindingStep(st, p, n);
      if OnEndpoint(st, p) || TakesBindings(st, p.ws) then
        && r.Going? && r.writes >= n - 1 && OnEndpoint(r.store, p)
        && r.store.versions == st.versions && r.store.endpoints == st.endpoints
      else r == Stopped(st, Error)
  {
    hide ControlRuns.BindingsOk;
    NamesNotEmpty(p);
    ChatRevision(st, p.ws);
    if SetBindingTx(st, BindingInputOf(p)).1 == Ok {
      BoundByTransaction(st, p);
    }
  }

  lemma ChatRevision(st: Store, ws: string)
    requires ControlRuns.BindingsOk(st) && BindingKey(ws, LlmChat) in st.bindings
    ensures st.bindings[BindingKey(ws, LlmChat)].revision >= 1
  {
    hide ControlRuns.Total;
    assert ControlRuns.RowOk(st, BindingKey(ws, LlmChat), st.bindings[BindingKey(ws, LlmChat)]);
  }

  /** With current revisions and no stop, a poll gets through exactly when the version was not retired
      before it had an endpoint and the workspace takes bindings; it then leaves the flow settled. */
  lemma PrepareGoes(st: Store, p: Request, n: nat)
    requires Sound(st) && FamilyFree(st, p) && Current(st, p) && n >= 5 && p.ws != "" && p.user != ""
    ensures Prepare(st, p, n).Going? <==> Open(st, p)
    ensures Open(st, p) ==> Settled(Prepare(st, p, n).store, p) && Prepare(st, p, n).writes >= n - 5
  {
    hide FamilyStep, VersionStep, VerifyStep, EndpointStep, BindingStep, ControlRuns.BindingsOk, Sound;
    SoundBindings(st);
    NoSystemTwin(st, p);
    FamilyGoes(st, p, n);
    var a := FamilyStep(st, p, n);
    VersionGoes(a.store, p, a.writes);
    var b := VersionStep(a.store, p, a.writes);
    VerifyGoes(b.store, p, b.writes);
    var c := VerifyStep(b.store, p, b.writes);
    EndpointGoes(c.store, p, c.writes);
    var d := EndpointStep(c.store, p, c.writes);
    if d.Going? {
      EndpointExtends(c.store, p, c.writes);
      SameCounters(st, d.store);
      BindingGoes(d.store, p, d.writes);
    }
  }

  lemma SameCounters(st: Store, st': Store)
    requires ControlRuns.BindingsOk(st) && KeepsBindings(st, st')
    requires forall k :: k in st.endpoints ==> k in st'.endpoints
    ensures ControlRuns.BindingsOk(st')
  {
    hide ControlRuns.BindingsOk;
    ControlRuns.StayKeeps(st, st');
  }

  // ---------------------------------------------------------------- convergence

  /** The names and the workspace stay free for the flow, whatever a poll of it has done. */
  lemma ExtendedStaysFree(st: Store, st': Store, p: Request)
    requires Extends(st, st', p) && FamilyFree(st, p)
    ensures FamilyFree(st', p)
    ensures !Blocked(st, p) ==> !Blocked(st', p)
    ensures Open(st, p) ==> Open(st', p)
  {
  }

  predicate SameFlow(p: Request, q: Request) {
    q.ws == p.ws && q.user == p.user && q.flowId == p.flowId
  }

  /** The flow is waiting or done, and its names and its workspace are free for it. */
  ghost predicate Ready(w: World, p: Request) {
    && p.ws != "" && p.user != "" && OwnsFlow(w, p) && Sound(w.store) && FamilyFree(w.store, p)
    && match w.flows[p.flowId].state
       case Pending => Open(w.store, p)
       case Authorized => Settled(w.store, p)
       case _ => false
  }

  /** Any poll of the flow before it expires, with whatever revisions and answer, wherever it stops,
      only adds rows of the flow and leaves the flow ready. */
  lemma PollKeepsReady(w: World, p: Request, q: Request, n: nat)
    requires Ready(w, p) && SameFlow(p, q) && q.now < w.flows[p.flowId].expiresAt
    ensures var w' := Polled(w, q, n).0;
      Ready(w', p) && Extends(w.store, w'.store, p) && w'.flows[p.flowId].expiresAt == w.flows[p.flowId].expiresAt
  {
    hide Prepare, ControlRuns.BindingsOk, FamilyFree, Open, Settled, OnEndpoint, Extends, ControlRuns.Inv;
    SelfExtends(w.store, p);
    if w.flows[p.flowId].state == Pending && q.reply == Granted {
      SoundBindings(w.store);
      PrepareExtends(w.store, q, n);
      PrepareKeepsInv(ControlRuns.State(w.store, map[]), q, n);
      var r := Prepare(w.store, q, n);
      SameNames(w.store, r.store, p, q);
      ExtendedStaysFree(w.store, r.store, p);
      if r.Going? {
        PrepareSettles(w.store, q, n);
        SameSettled(r.store, p, q);
      }
    }
  }

  lemma SelfExtends(st: Store, p: Request)
    ensures Extends(st, st, p)
  {
  }

  lemma SameNames(st: Store, st': Store, p: Request, q: Request)
    requires SameFlow(p, q) && Extends(st, st', q)
    ensures Extends(st, st', p)
  {
  }

  lemma SameSettled(st: Store, p: Request, q: Request)
    requires SameFlow(p, q) && Settled(st, q)
    ensures Settled(st, p)
  {
  }

  /** A poll that gets through leaves the flow settled, whatever revisions it was given. */
  lemma PrepareSettles(st: Store, p: Request, n: nat)
    requires Prepare(st, p, n).Going? && ControlRuns.BindingsOk(st)
    ensures Settled(Prepare(st, p, n).store, p)
  {
    hide FamilyStep, VersionStep, ControlRuns.BindingsOk, VerifyStep, EndpointStep, BindingStep, OnEndpoint;
    var a := FamilyStep(st, p, n);
    FamilyExtends(st, p, n);
    GrownBindingsOk(st, a.store, p);
    var b := VersionStep(a.store, p, a.writes);
    VersionExtends(a.store, p, a.writes);
    Then(st, a.store, b.store, p);
    VersionIsThere(a.store, p, a.writes);
    var c := VerifyStep(b.store, p, b.writes);
    VerifyExtends(b.store, p, b.writes);
    Then(st, b.store, c.store, p);
    VerifiedIsThere(b.store, p, b.writes);
    var d := EndpointStep(c.store, p, c.writes);
    EndpointExtends(c.store, p, c.writes);
    Then(st, c.store, d.store, p);
    EndpointIsThere(c.store, p, c.writes);
    BoundIsThere(d.store, p, d.writes);
  }

  lemma VersionIsThere(st: Store, p: Request, n: nat)
    requires VersionStep(st, p, n).Going?
    ensures VersionKeyOf(p) in VersionStep(st, p, n).store.versions
  {
    hide IsNext;
  }

  lemma VerifiedIsThere(st: Store, p: Request, n: nat)
    requires VerifyStep(st, p, n).Going? && VersionKeyOf(p) in st.versions
    ensures var t := VerifyStep(st, p, n).store;
      VersionKeyOf(p) in t.versions && t.versions[VersionKeyOf(p)].state != Draft
  {
  }

  lemma EndpointIsThere(st: Store, p: Request, n: nat)
    requires EndpointStep(st, p, n).Going?
    ensures var t := EndpointStep(st, p, n).store; EndpointKeyOf(p) in t.endpoints && t.versions == st.versions
  {
  }

  lemma BoundIsThere(st: Store, p: Request, n: nat)
    requires BindingStep(st, p, n).Going? && ControlRuns.BindingsOk(st)
    ensures var t := BindingStep(st, p, n).store;
      OnEndpoint(t, p) && t.versions == st.versions && t.endpoints == st.endpoints
  {
    hide ControlRuns.BindingsOk;
    if !OnEndpoint(st, p) {
      BoundByTransaction(st, p);
    }
  }

  /** One attempt: a request, and the number of writes after which the process stops. */
  datatype Attempt = Attempt(request: Request, writes: nat)

  ghost function Polls(w: World, attempts: seq<Attempt>): World
    decreases |attempts|
  {
    if |attempts| == 0 then w
    else Polls(Polled(w, attempts[0].request, attempts[0].writes).0, attempts[1..])
  }

  /** A poll of the same flow, before it expires. */
  predicate InTime(w: World, p: Request, q: Request)
    requires p.flowId in w.flows
  {
    SameFlow(p, q) && q.now < w.flows[p.flowId].expiresAt
  }

  lemma {:induction false} PollsKeepReady(w: World, p: Request, attempts: seq<Attempt>)
    requires Ready(w, p)
    requires forall i :: 0 <= i < |attempts| ==> InTime(w, p, attempts[i].request)
    ensures var w' := Polls(w, attempts);
      Ready(w', p) && Extends(w.store, w'.store, p) && w'.flows[p.flowId].expiresAt == w.flows[p.flowId].expiresAt
    decreases |attempts|
  {
    hide Polled, Extends, FamilyFree, Open, Settled, Sound;
    SelfExtends(w.store, p);
    if |attempts| > 0 {
      PollKeepsReady(w, p, attempts[0].request, attempts[0].writes);
      var w' := Polled(w, attempts[0].request, attempts[0].writes).0;
      PollsKeepReady(w', p, attempts[1..]);
      ExtendsTwice(w.store, w'.store, Polls(w', attempts[1..]).store, p);
    }
  }

  /** Polls converge: after any number of attempts that stopped anywhere, one granted poll with
      current revisions connects the flow. All together have added at most one family, one version and
      one endpoint, and have moved the chat binding to that endpoint once, raising the binding
      revision by one (by none if it was there before). */
  lemma PollsConverge(w: World, attempts: seq<Attempt>, last: Request, n: nat)
    requires Ready(w, last) && last.reply == Granted && last.now < w.flows[last.flowId].expiresAt && n >= 6
    requires forall i :: 0 <= i < |attempts| ==> InTime(w, last, attempts[i].request)
    requires Current(Polls(w, attempts).store, last)
    ensures var (w', outcome) := Polled(Polls(w, attempts), last, n);
      && outcome == Connected && OwnsFlow(w', last) && w'.flows[last.flowId].state == Authorized
      && Settled(w'.store, last) && Extends(w.store, w'.store, last)
      && last.ws in w.store.runtime && last.ws in w'.store.runtime
      && w'.store.runtime[last.ws].bindingRevision
           == w.store.runtime[last.ws].bindingRevision + if OnEndpoint(w.store, last) then 0 else 1
  {
    hide Prepare, FamilyFree, Open, Sound, Polls;
    PollsKeepReady(w, last, attempts);
    var v := Polls(w, attempts);
    PollKeepsReady(v, last, last, n);
    ExtendsTwice(w.store, v.store, Polled(v, last, n).0.store, last);
    if v.flows[last.flowId].state == Pending {
      PrepareGoes(v.store, last, n);
    }
  }

  lemma FamilyTaken(st: Store, p: Request, n: nat)
    requires !FamilyFree(st, p)
    ensures FamilyStep(st, p, n) == Stopped(st, Error)
  {
    var f :| f in st.families && f.ws == p.ws && f.id == FamilyOf(p).id && f.kind != LlmChat;
  }

  /** Without a stop, a granted poll of a waiting flow connects exactly when no family of another kind
      has its family name, its version was not retired before it had an endpoint, and the workspace takes
      bindings or is bound already. */
  lemma PollConnectsIff(w: World, p: Request, n: nat)
    requires OwnsFlow(w, p) && w.flows[p.flowId].state == Pending && p.now < w.flows[p.flowId].expiresAt
    requires p.reply == Granted && n >= 6 && p.ws != "" && p.user != ""
    requires Sound(w.store) && Current(w.store, p)
    ensures Polled(w, p, n).1 == Connected <==> FamilyFree(w.store, p) && Open(w.store, p)
  {
    hide Open, FamilyFree, Sound, FamilyStep, VersionStep, VerifyStep, EndpointStep, BindingStep;
    NeverConnectedEarly(w.store, p, n);
    if FamilyFree(w.store, p) {
      PrepareGoes(w.store, p, n);
    } else {
      FamilyTaken(w.store, p, n);
    }
  }

  lemma NeverConnectedEarly(st: Store, p: Request, n: nat)
    ensures Prepare(st, p, n).Stopped? ==> Prepare(st, p, n).outcome == Error || Prepare(st, p, n).outcome == Crashed
  {
    hide EnsureFamily, CreateVersionTx, VerifyVersion, CreateEndpoint, SetBindingTx, OnEndpoint,
      Resolver.SelectedEndpoint;
  }

  // ---------------------------------------------------------------- polls among other calls

  /** The flows, and the control store with the calls that are open in it. */
  datatype Session = Session(flows: map<string, Flow>, state: ControlRuns.State)

  /** An attempt of the flow, or a step of any other call on the control store. */
  datatype Event = PollEvent(attempt: Attempt) | OtherEvent(op: ControlRuns.Op)

  ghost function Happen(x: Session, e: Event): Session {
    match e
    case PollEvent(a) =>
      var w := Polled(World(x.state.store, x.flows), a.request, a.writes).0;
      Session(w.flows, x.state.(store := w.store))
    case OtherEvent(op) => x.(state := ControlRuns.Step(x.state, op))
  }

  ghost function HappenAll(x: Session, events: seq<Event>): Session
    decreases |events|
  {
    if |events| == 0 then x else HappenAll(Happen(x, events[0]), events[1..])
  }

  /** The flow is waiting or done, its family name is free for it and its version was not retired too early. */
  ghost predicate Waiting(x: Session, p: Request) {
    && p.ws != "" && p.user != "" && OwnsFlow(World(x.state.store, x.flows), p)
    && ControlRuns.Inv(x.state) && FamilyFree(x.state.store, p) && !Blocked(x.state.store, p)
    && (x.flows[p.flowId].state == Pending || x.flows[p.flowId].state == Authorized)
  }

  /** Anything but retiring the flow's version and taking its family name for another kind; the flow is
      polled before it expires. */
  predicate Harmless(x: Session, e: Event, p: Request)
    requires p.flowId in x.flows
  {
    match e
    case PollEvent(a) => InTime(World(x.state.store, x.flows), p, a.request)
    case OtherEvent(op) =>
      && ControlRuns.Enabled(x.state, op)
      && !(op.RetireOp? && op.versionKey == VersionKeyOf(p))
      && !(op.FamilyOp? && op.family.ws == p.ws && op.family.id == FamilyOf(p).id && op.family.kind != LlmChat)
  }

  ghost predicate AllHarmless(x: Session, events: seq<Event>, p: Request)
    decreases |events|
  {
    |events| == 0
    || (p.flowId in x.flows && Harmless(x, events[0], p) && AllHarmless(Happen(x, events[0]), events[1..], p))
  }

  /** A step of another call changes the families only by one, and retires versions only by name. */
  lemma OtherStep(s: ControlRuns.State, op: ControlRuns.Op, k: VersionKey)
    ensures var t := ControlRuns.Step(s, op);
      && (forall f :: f in t.store.families && f !in s.store.families ==> op.FamilyOp? && f == op.family)
      && (k in t.store.versions && t.store.versions[k].state == Retired ==>
            (op.RetireOp? && op.versionKey == k) || (k in s.store.versions && s.store.versions[k].state == Retired))
  {
    hide CreateVersionTx, Candidate, EnsureFamily, InsertEndpoint, CheckEndpoint, Provision;
    match op
    case FamilyOp(family, name, actor) => FamilyAdds(s.store, family, name, actor);
    case CreateVersionOp(v) => CreatedDraft(s.store, v, k);
    case CandidateOp(c) => ControlRuns.CandidateFrame(s.store, c);
    case ProvisionOp(ws, defaults) => ControlRuns.ProvisionFrame(s.store, ws, defaults);
    case InsertEndpointOp(call) =>
      if call in s.pending {
        ControlRuns.InsertFrame(s.store, s.pending[call].key, s.pending[call].versionId);
      }
    case _ =>
      if ControlRuns.Quiet(op) {
        QuietFamilies(s, op);
        ControlRuns.QuietStep(s, op);
      }
  }

  lemma FamilyAdds(st: Store, family: FamilyKey, name: string, actor: string)
    ensures var t := EnsureFamily(st, family, name, actor).0;
      && t == st.(families := t.families)
      && forall f :: f in t.families && f !in st.families ==> f == family
  {
  }

  lemma CreatedDraft(st: Store, v: VersionInput, k: VersionKey)
    ensures var t := CreateVersionTx(st, v).0;
      && t == st.(versions := t.versions)
      && (k in t.versions && t.versions[k].state == Retired ==> k in st.versions && st.versions[k].state == Retired)
  {
    hide IsNext;
  }

  lemma QuietFamilies(s: ControlRuns.State, op: ControlRuns.Op)
    requires ControlRuns.Quiet(op) && !op.FamilyOp?
    ensures ControlRuns.Step(s, op).store.families == s.store.families
  {
    hide SetBindingTx, ActivateBinding;
    match op
    case BindOp(input) => ControlRuns.BindingFrame(s.store, input);
    case ActivateOp(activation) => ControlRuns.ActivationFrame(s.store, activation);
    case _ =>
  }

  lemma OtherKeepsWaiting(x: Session, op: ControlRuns.Op, p: Request)
    requires Waiting(x, p) && Harmless(x, OtherEvent(op), p)
    ensures Waiting(Happen(x, OtherEvent(op)), p)
  {
    hide ControlRuns.Inv, ControlRuns.Step, ControlRuns.Enabled;
    OtherStep(x.state, op, VersionKeyOf(p));
    ControlRuns.StepInv(x.state, op);
    if EndpointKeyOf(p) in x.state.store.endpoints {
      ControlRuns.EndpointsKept(x.state, op, EndpointKeyOf(p));
    }
  }

  /** A timely poll changes the store as `Prepare` does, or not at all, and the flow at most to authorized. */
  lemma TimelyPoll(w: World, p: Request, q: Request, n: nat)
    requires SameFlow(p, q) && OwnsFlow(w, p) && q.now < w.flows[p.flowId].expiresAt
    requires w.flows[p.flowId].state == Pending || w.flows[p.flowId].state == Authorized
    ensures var w' := Polled(w, q, n).0;
      && (w'.store == w.store || w'.store == Prepare(w.store, q, n).store) && OwnsFlow(w', p)
      && (w'.flows[p.flowId].state == Pending || w'.flows[p.flowId].state == Authorized)
  {
    hide Prepare;
  }

  lemma PreparedStaysFree(s: ControlRuns.State, p: Request, q: Request, n: nat)
    requires ControlRuns.Inv(s) && SameFlow(p, q) && FamilyFree(s.store, p) && !Blocked(s.store, p)
    ensures var t := s.(store := Prepare(s.store, q, n).store);
      ControlRuns.Inv(t) && FamilyFree(t.store, p) && !Blocked(t.store, p)
  {
    hide ControlRuns.Inv, Prepare, Extends, Blocked, FamilyFree, Open;
    ControlRuns.PartsOfInv(s);
    PrepareExtends(s.store, q, n);
    SameNames(s.store, Prepare(s.store, q, n).store, p, q);
    PrepareKeepsInv(s, q, n);
    ExtendedStaysFree(s.store, Prepare(s.store, q, n).store, p);
  }

  lemma AttemptKeepsWaiting(x: Session, a: Attempt, p: Request)
    requires Waiting(x, p) && Harmless(x, PollEvent(a), p)
    ensures Waiting(Happen(x, PollEvent(a)), p)
  {
    hide ControlRuns.Inv, Prepare, Polled, Blocked, FamilyFree;
    TimelyPoll(World(x.state.store, x.flows), p, a.request, a.writes);
    PreparedStaysFree(x.state, p, a.request, a.writes);
    assert x.state.(store := x.state.store) == x.state;
  }

  lemma {:induction false} EventsKeepWaiting(x: Session, events: seq<Event>, p: Request)
    requires Waiting(x, p) && AllHarmless(x, events, p)
    ensures Waiting(HappenAll(x, events), p)
    decreases |events|
  {
    hide Happen, Waiting, Harmless;
    if |events| > 0 {
      match events[0] {
        case PollEvent(a) => AttemptKeepsWaiting(x, a, p);
        case OtherEvent(op) => OtherKeepsWaiting(x, op, p);
      }
      EventsKeepWaiting(Happen(x, events[0]), events[1..], p);
    }
  }

  /** Convergence does not need the store to itself: after any attempts that stopped anywhere, mixed with
      any steps of other calls that neither retire the flow's version nor take its family name, one
      granted poll with current revisions connects the flow as soon as the workspace takes bindings or
      is bound already. */
  lemma PollsConvergeAmongOthers(x: Session, events: seq<Event>, last: Request, n: nat)
    requires Waiting(x, last) && AllHarmless(x, events, last) && last.reply == Granted && n >= 6
    requires var y := HappenAll(x, events); last.flowId in y.flows && last.now < y.flows[last.flowId].expiresAt
    requires var st := HappenAll(x, events).state.store;
      Current(st, last) && (OnEndpoint(st, last) || TakesBindings(st, last.ws))
    ensures var y := HappenAll(x, events); var (w', outcome) := Polled(World(y.state.store, y.flows), last, n);
      && outcome == Connected && OwnsFlow(w', last) && w'.flows[last.flowId].state == Authorized
      && (y.flows[last.flowId].state == Pending ==> Settled(w'.store, last))
  {
    hide Prepare, Settled, ControlRuns.Inv, HappenAll, AllHarmless, FamilyFree, OnEndpoint, TakesBindings, Blocked;
    EventsKeepWaiting(x, events, last);
    var y := HappenAll(x, events);
    if y.flows[last.flowId].state == Pending {
      InvAlone(y.state);
      PrepareGoes(y.state.store, last, n);
    }
  }

  lemma InvAlone(s: ControlRuns.State)
    requires ControlRuns.Inv(s)
    ensures Sound(s.store)
  {
    hide ControlRuns.BindingsOk, UniqueSystemNumbers, ControlRuns.EndpointOk;
  }

  // ---------------------------------------------------------------- a version retired too early

  lemma FamilyKeepsRest(st: Store, p: Request, n: nat)
    ensures var t := FamilyStep(st, p, n).store; t == st.(families := t.families)
  {
  }

  /** No poll of a blocked flow connects, whatever it was given and wherever it stops. */
  lemma BlockedPollFails(w: World, p: Request, n: nat)
    requires OwnsFlow(w, p) && w.flows[p.flowId].state == Pending
    requires Sound(w.store) && Blocked(w.store, p)
    ensures Polled(w, p, n).1 != Connected
  {
    hide FamilyStep, VersionStep, VerifyStep, EndpointStep, BindingStep, Sound;
    NoSystemTwin(w.store, p);
    var a := FamilyStep(w.store, p, n);
    FamilyKeepsRest(w.store, p, n);
    if a.Going? {
      BlockedSteps(a.store, p, a.writes);
    }
    NeverConnectedEarly(w.store, p, n);
  }

  lemma BlockedSteps(st: Store, p: Request, n: nat)
    requires Blocked(st, p) && EndpointKey(p.ws, LlmChat, SystemSource, EndpointKeyOf(p).id) !in st.endpoints
    ensures VersionStep(st, p, n) == Going(st, n) && VerifyStep(st, p, n) == Going(st, n)
    ensures EndpointStep(st, p, n) == Stopped(st, Error)
  {
  }

  /** What prepares such a flow: its version is created and retired before it was verified. */
  function RetiredOps(p: Request): seq<ControlRuns.Op> {
    [ControlRuns.FamilyOp(FamilyOf(p), "Codex", p.user), ControlRuns.CreateVersionOp(VersionInputOf(p)),
     ControlRuns.RetireOp(VersionKeyOf(p))]
  }

  /** Every store in which the names of a flow are unused can be brought there. */
  lemma RetiredFlowIsReached(s: ControlRuns.State, p: Request)
    requires ControlRuns.Inv(s) && FamilyFree(s.store, p) && p.ws != "" && p.user != ""
    requires VersionKeyOf(p) !in s.store.versions && EndpointKeyOf(p) !in s.store.endpoints
    ensures ControlRuns.IsRun(s, RetiredOps(p))
    ensures var t := ControlRuns.Run(s, RetiredOps(p)).store;
      ControlRuns.Inv(ControlRuns.State(t, s.pending)) && Blocked(t, p)
  {
    hide ControlRuns.Inv, CreateVersionTx, EnsureFamily;
    var ops := RetiredOps(p);
    FamilyGoes(s.store, p, 1);
    var a := ControlRuns.Step(s, ops[0]);
    VersionGoes(a.store, p, 1);
    var b := ControlRuns.Step(a, ops[1]);
    var c := ControlRuns.Step(b, ops[2]);
    FamilyIsStep(s, p);
    VersionIsStep(a, p);
    ThreeSteps(s, ops);
    ControlRuns.RunInv(s, ops);
  }

  lemma ThreeSteps(s: ControlRuns.State, ops: seq<ControlRuns.Op>)
    requires |ops| == 3
    ensures var a := ControlRuns.Step(s, ops[0]); var b := ControlRuns.Step(a, ops[1]);
      && ControlRuns.Run(s, ops) == ControlRuns.Step(b, ops[2])
      && (ControlRuns.IsRun(s, ops) <==>
            ControlRuns.Enabled(s, ops[0]) && ControlRuns.Enabled(a, ops[1]) && ControlRuns.Enabled(b, ops[2]))
  {
    hide ControlRuns.Step, ControlRuns.Enabled;
    var a := ControlRuns.Step(s, ops[0]);
    var b := ControlRuns.Step(a, ops[1]);
    assert ops[1..] == [ops[1], ops[2]] && ops[1..][1..] == [ops[2]] && [ops[2]][1..] == [];
    assert ControlRuns.Run(a, ops[1..]) == ControlRuns.Run(b, [ops[2]]);
    assert ControlRuns.IsRun(a, ops[1..]) <==> ControlRuns.Enabled(a, ops[1]) && ControlRuns.IsRun(b, [ops[2]]);
  }

  lemma FamilyIsStep(s: ControlRuns.State, p: Request)
    requires FamilyStep(s.store, p, 1).Going?
    ensures ControlRuns.Step(s, ControlRuns.FamilyOp(FamilyOf(p), "Codex", p.user))
      == s.(store := FamilyStep(s.store, p, 1).store)
  {
    hide EnsureFamily;
  }

  lemma VersionIsStep(s: ControlRuns.State, p: Request)
    requires VersionStep(s.store, p, 1).Going? && VersionKeyOf(p) !in s.store.versions
    ensures ControlRuns.Step(s, ControlRuns.CreateVersionOp(VersionInputOf(p)))
      == s.(store := VersionStep(s.store, p, 1).store)
  {
    hide CreateVersionTx;
  }

  // ---------------------------------------------------------------- the service

  /** The next number of a family depends on the versions only. */
  lemma SameNext(s: Store, t: Store, p: Request, n: nat)
    requires s.versions == t.versions && n == NextNumber(s, p.ws, LlmChat, FamilyOf(p).id)
    ensures n == NextNumber(t, p.ws, LlmChat, FamilyOf(p).id)
  {
  }

  class Service {
    var store: Store
    var flows: map<string, Flow>

    constructor (store: Store, flows: map<string, Flow>)
      ensures this.store == store && this.flows == flows
    {
      this.store, this.flows := store, flows;
    }

    /** The service has made the progress described. */
    predicate Made(progress: Progress, left: nat, stop: Option<Outcome>)
      reads this
    {
      match progress
      case Going(st, n) => store == st && left == n && stop == None
      case Stopped(st, outcome) => store == st && stop == Some(outcome)
    }

    method EnsureFlowFamily(p: Request, writes: nat) returns (left: nat, stop: Option<Outcome>)
      modifies this`store
      ensures Made(FamilyStep(old(store), p, writes), left, stop)
    {
      left, stop := writes, None;
      var result := EnsureFamily(store, FamilyOf(p), "Codex", p.user);
      if result.1 != Ok {
        return left, Some(Error);
      }
      if result.0 != store {
        if left == 0 {
          return left, Some(Crashed);
        }
        store, left := result.0, left - 1;
      }
    }

    method EnsureVersion(p: Request, writes: nat, nextVersion: nat) returns (left: nat, stop: Option<Outcome>)
      requires nextVersion == NextNumber(store, p.ws, LlmChat, FamilyOf(p).id)
      modifies this`store
      ensures Made(VersionStep(old(store), p, writes), left, stop)
    {
      hide IsNext;
      left, stop := writes, None;
      if VersionKeyOf(p) !in store.versions {
        if !CanCreateVersion(store, VersionInputOf(p)) {
          return left, Some(Error);
        }
        if left == 0 {
          return left, Some(Crashed);
        }
        var row := Version(FamilyOf(p).id, nextVersion, VersionInputOf(p).provider, Draft, CONFIG, p.tokens);
        store, left := store.(versions := store.versions[VersionKeyOf(p) := row]), left - 1;
      }
    }

    method EnsureVerified(p: Request, writes: nat) returns (left: nat, stop: Option<Outcome>)
      modifies this`store
      ensures Made(VerifyStep(old(store), p, writes), left, stop)
    {
      left, stop := writes, None;
      if VersionKeyOf(p) in store.versions && store.versions[VersionKeyOf(p)].state == Draft {
        if left == 0 {
          return left, Some(Crashed);
        }
        store, left := VerifyVersion(store, VersionKeyOf(p)).0, left - 1;
      }
    }

    /** `ensureEndpoint` */
    method EnsureEndpoint(p: Request, writes: nat) returns (left: nat, stop: Option<Outcome>)
      modifies this`store
      ensures Made(EndpointStep(old(store), p, writes), left, stop)
    {
      left, stop := writes, None;
      var known := Resolver.SelectedEndpoint(store, p.ws, LlmChat, EndpointKeyOf(p).id, p.prefer);
      if known.Some? {
        return left, if known.value.source != CustomSource then Some(Error) else None;
      }
      var result := CreateEndpoint(store, EndpointKeyOf(p), VersionKeyOf(p).id);
      if result.1 != Ok {
        return left, Some(Error);
      }
      if left == 0 {
        return left, Some(Crashed);
      }
      store, left := result.0, left - 1;
    }

    method EnsureBinding(p: Request, writes: nat) returns (left: nat, stop: Option<Outcome>)
      modifies this`store
      ensures Made(BindingStep(old(store), p, writes), left, stop)
    {
      hide SetBindingTx;
      left, stop := writes, None;
      if !OnEndpoint(store, p) {
        var result := SetBindingTx(store, BindingInputOf(p));
        if result.1 != Ok {
          return left, Some(Error);
        }
        if left == 0 {
          return left, Some(Crashed);
        }
        store, left := result.0, left - 1;
      }
    }

    method PrepareFlow(p: Request, writes: nat, nextVersion: nat) returns (left: nat, stop: Option<Outcome>)
      requires nextVersion == NextNumber(store, p.ws, LlmChat, FamilyOf(p).id)
      modifies this`store
      ensures Made(Prepare(old(store), p, writes), left, stop)
    {
      hide FamilyStep, VersionStep, VerifyStep, EndpointStep, BindingStep, IsNext;
      left, stop := EnsureFlowFamily(p, writes);
      if stop.Some? {
        return;
      }
      FamilyKeepsRest(old(store), p, writes);
      SameNext(old(store), store, p, nextVersion);
      left, stop := EnsureVersion(p, left, nextVersion);
      if stop.Some? {
        return;
      }
      left, stop := EnsureVerified(p, left);
      if stop.Some? {
        return;
      }
      left, stop := EnsureEndpoint(p, left);
      if stop.Some? {
        return;
      }
      left, stop := EnsureBinding(p, left);
    }

    /** `Poll`, with the process stopping before write number `writes + 1`. Whatever was written
        before the stop stays written. */
    method Poll(p: Request, writes: nat, nextVersion: nat) returns (outcome: Outcome)
      requires nextVersion == NextNumber(store, p.ws, LlmChat, FamilyOf(p).id)
      modifies this
      ensures (World(store, flows), outcome) == Polled(World(old(store), old(flows)), p, writes)
    {
      hide Prepare, IsNext;
      if p.flowId !in flows || flows[p.flowId].ws != p.ws || flows[p.flowId].user != p.user {
        return Error;
      }
      var flow := flows[p.flowId];
      if flow.state == Authorized {
        return Connected;
      }
      if flow.state != Pending {
        return Status(flow.state);
      }
      if p.now >= flow.expiresAt {
        if writes == 0 {
          return Crashed;
        }
        flows := flows[p.flowId := flow.(state := Expired)];
        return Status(Expired);
      }
      if p.reply != Granted {
        return if p.reply == NotYet then Status(Pending) else Error;
      }
      var left, stop := PrepareFlow(p, writes, nextVersion);
      if stop.Some? {
        return stop.value;
      }
      if left == 0 {
        return Crashed;
      }
      flows := flows[p.flowId := flow.(state := Authorized)];
      return Connected;
    }
  }
}
