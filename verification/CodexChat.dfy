/** What a connected Codex flow is for: the poll of backend/internal/codexsubscription/service.go leaves
    the workspace with a chat that the resolver of backend/internal/airuntime/resolver.go answers with the
    subscription and the tokens the authorization server granted. */
module CodexChat {
  import opened Wrappers
  import opened ControlStore
  import ControlRuns
  import Resolver
  import opened CodexPoll

  /** The configuration of the subscription, as text, and the model in it. */
  const CODEX_CONFIG: Config :=
    Json("{\"api_mode\":\"codex_responses\",\"auth_mode\":\"chatgpt\","
         + "\"endpoint\":\"https://chatgpt.com/backend-api/codex\",\"model\":\"gpt-5.3-codex\"}",
         Some("gpt-5.3-codex"))

  lemma FamilySays(st: Store, p: Request, n: nat)
    ensures FamilyStep(st, p, n).store.versions == st.versions
  {
  }

  lemma VersionSays(st: Store, p: Request, n: nat)
    requires VersionStep(st, p, n).Going?
    ensures var t := VersionStep(st, p, n).store; var k := VersionKey(p.ws, LlmChat, "codex-" + p.flowId);
      && k in t.versions && (k in st.versions ==> t == st)
      && (k !in st.versions ==>
            t.versions[k] == Version("codex-subscription-" + p.flowId, t.versions[k].number,
                                     "openai_codex_subscription", Draft, CODEX_CONFIG, p.tokens))
  {
    hide IsNext;
  }

  lemma VerifySays(st: Store, p: Request, n: nat)
    requires VerifyStep(st, p, n).Going? && VersionKeyOf(p) in st.versions
    ensures var t := VerifyStep(st, p, n).store; var k := VersionKeyOf(p);
      && k in t.versions && t.versions[k].state != Draft
      && t.versions[k] == if st.versions[k].state == Draft then st.versions[k].(state := Verified) else st.versions[k]
  {
  }

  lemma EndpointSays(st: Store, p: Request, n: nat)
    ensures EndpointStep(st, p, n).store.versions == st.versions
  {
  }

  lemma EndpointName(flowId: string)
    ensures CustomName("codex-" + flowId) == "custom-codex-" + flowId
  {
    assert "custom-" + ("codex-" + flowId) == ("custom-" + "codex-") + flowId;
  }

  lemma BindingSays(st: Store, p: Request, n: nat)
    requires ControlRuns.BindingsOk(st) && BindingStep(st, p, n).Going?
    ensures var t := BindingStep(st, p, n).store; t.versions == st.versions && OnEndpoint(t, p)
    ensures !OnEndpoint(st, p) ==> FreshBinding(BindingStep(st, p, n).store, p)
  {
    hide ControlRuns.BindingsOk, SetBindingTx;
    if !OnEndpoint(st, p) {
      BoundByTransaction(st, p);
      ControlRuns.SetBindingAdvances(st, BindingInputOf(p));
      EndpointName(p.flowId);
    }
  }

  /** The row a poll binds chat with: the endpoint of the flow, empty settings, one revision on. */
  predicate FreshBinding(st: Store, p: Request) {
    var k := BindingKey(p.ws, LlmChat);
    && k in st.bindings
    && st.bindings[k] == Binding(Custom, CustomSource, "custom-codex-" + p.flowId, "{}", p.expectedRevision + 1)
  }

  /** What the store holds once all steps of a poll are taken. */
  lemma Prepared(s: ControlRuns.State, p: Request, n: nat)
    requires ControlRuns.Inv(s) && Prepare(s.store, p, n).Going?
    ensures var t := Prepare(s.store, p, n).store; var k := VersionKey(p.ws, LlmChat, "codex-" + p.flowId);
      && OnEndpoint(t, p) && k in t.versions && (!OnEndpoint(s.store, p) ==> FreshBinding(t, p))
      && (k !in s.store.versions ==>
            t.versions[k] == Version("codex-subscription-" + p.flowId, t.versions[k].number,
                                     "openai_codex_subscription", Verified, CODEX_CONFIG, p.tokens))
      && (k in s.store.versions ==>
            t.versions[k] == if s.store.versions[k].state == Draft then s.store.versions[k].(state := Verified)
                             else s.store.versions[k])
  {
    hide ControlRuns.Inv, FamilyStep, VersionStep, VerifyStep, EndpointStep, BindingStep, FreshBinding, Extends;
    var a := FamilyStep(s.store, p, n);
    FamilySays(s.store, p, n);
    FamilyKeepsInv(s, p, n);
    var b := VersionStep(a.store, p, a.writes);
    VersionSays(a.store, p, a.writes);
    VersionKeepsInv(s.(store := a.store), p, a.writes);
    var c := VerifyStep(b.store, p, b.writes);
    VerifySays(b.store, p, b.writes);
    VerifyKeepsInv(s.(store := b.store), p, b.writes);
    var d := EndpointStep(c.store, p, c.writes);
    EndpointSays(c.store, p, c.writes);
    EndpointKeepsInv(s.(store := c.store), p, c.writes);
    ControlRuns.PartsOfInv(s.(store := d.store));
    FamilyExtends(s.store, p, n);
    VersionExtends(a.store, p, a.writes);
    VerifyExtends(b.store, p, b.writes);
    EndpointExtends(c.store, p, c.writes);
    BindingSays(d.store, p, d.writes);
  }

  /** The endpoint of the flow stands for its version. */
  lemma EndpointStandsFor(s: ControlRuns.State, p: Request)
    requires ControlRuns.Inv(s) && EndpointKeyOf(p) in s.store.endpoints
    ensures s.store.endpoints[EndpointKeyOf(p)] == VersionKeyOf(p).id
  {
    hide UniqueSystemNumbers, ControlRuns.BindingsOk, ControlRuns.Usable;
    var id := s.store.endpoints[EndpointKeyOf(p)];
    assert ControlRuns.EndpointOk(s.store, EndpointKeyOf(p), id);
    assert CustomName(id) == CustomName(VersionKeyOf(p).id);
    assert CustomName(id)[|CustomName("")|..] == id;
    assert CustomName(VersionKeyOf(p).id)[|CustomName("")|..] == VersionKeyOf(p).id;
  }

  /** A workspace bound to the endpoint of the flow resolves to its version. */
  lemma FlowResolves(s: ControlRuns.State, p: Request, prefer: Source)
    requires ControlRuns.Inv(s) && OnEndpoint(s.store, p) && VersionKeyOf(p) in s.store.versions
    ensures var v := s.store.versions[VersionKeyOf(p)]; var r := Resolver.ResolveChat(s.store, p.ws, prefer);
      Resolver.Readable(v) ==>
        r == Resolver.Resolved(Resolver.Capability(Custom, false, "custom-codex-" + p.flowId, "codex-" + p.flowId,
                                                   v.provider, v.config.model.value, v.config, v.secret))
  {
    hide ControlRuns.Inv, Resolver.ResolveChat;
    ControlRuns.PartsOfInv(s);
    BoundWorkspace(s.store, p);
    Resolver.ChatResolves(s, p.ws, prefer);
    EndpointStandsFor(s, p);
    assert EndpointKeyOf(p).id == "custom-codex-" + p.flowId by { EndpointName(p.flowId); }
  }

  /** Once a poll of a waiting flow connects it, chat resolves to the version of the flow, whatever row the
      database prefers: for a flow that had none, to the subscription with the tokens of this poll. */
  lemma ConnectedResolves(s: ControlRuns.State, flows: map<string, Flow>, p: Request, n: nat, prefer: Source)
    requires ControlRuns.Inv(s) && OwnsFlow(World(s.store, flows), p) && flows[p.flowId].state == Pending
    requires Polled(World(s.store, flows), p, n).1 == Connected
    ensures var t := Polled(World(s.store, flows), p, n).0.store;
      var version, endpoint := "codex-" + p.flowId, "custom-codex-" + p.flowId;
      var k := VersionKey(p.ws, LlmChat, version); var r := Resolver.ResolveChat(t, p.ws, prefer);
      && (!OnEndpoint(s.store, p) ==> FreshBinding(t, p))
      && (k !in s.store.versions ==>
            r == Resolver.Resolved(Resolver.Capability(Custom, false, endpoint, version, "openai_codex_subscription",
                                                       "gpt-5.3-codex", CODEX_CONFIG, p.tokens)))
      && (k in s.store.versions && Resolver.Readable(s.store.versions[k]) ==>
            var v := s.store.versions[k];
            r == Resolver.Resolved(Resolver.Capability(Custom, false, endpoint, version, v.provider,
                                                       v.config.model.value, v.config, v.secret)))
  {
    hide ControlRuns.Inv, Prepare, Resolver.ResolveChat, OnEndpoint;
    var t := Prepare(s.store, p, n).store;
    NeverConnectedEarly(s.store, p, n);
    Prepared(s, p, n);
    PrepareKeepsInv(s, p, n);
    FlowResolves(s.(store := t), p, prefer);
  }

  lemma BoundWorkspace(st: Store, p: Request)
    requires ControlRuns.BindingsOk(st) && OnEndpoint(st, p)
    ensures p.ws in st.runtime && st.bindings[BindingKey(p.ws, LlmChat)].source == CustomSource
  {
    hide ControlRuns.Total;
    assert ControlRuns.RowOk(st, BindingKey(p.ws, LlmChat), st.bindings[BindingKey(p.ws, LlmChat)]);
  }
}
