/** The resolver of backend/internal/airuntime/resolver.go over the store of control_source.go. */
module Resolver {
  import opened Wrappers
  import opened ControlStore
  import opened ControlRuns

  datatype Profile = Profile(endpointId: string, kind: Kind, versionId: string, provider: string, model: string,
                             config: Config, secret: string)

  datatype Capability = Capability(mode: Mode, reusedChat: bool, endpointId: string, versionId: string,
                                   provider: string, model: string, config: Config, secret: string)

  datatype Cause = NoBinding | InvalidMode | MissingEndpoint | EndpointNotLoaded | IdentityMismatch

  datatype Resolution = Resolved(capability: Capability) | CapabilityDisabled | Unavailable(cause: Cause)

  // ---------------------------------------------------------------- the source

  /** The row the endpoint SELECT returns. The source is not part of its WHERE clause, so where both
      sources have an endpoint of that name, `prefer` is the one the database happens to return; in a
      reachable store it makes no difference (`SelectionIsUnambiguous`). */
  function SelectedEndpoint(st: Store, ws: string, kind: Kind, endpointId: string, prefer: Source)
    : Option<EndpointKey>
  {
    var custom := EndpointKey(ws, kind, CustomSource, endpointId);
    var system := EndpointKey(ws, kind, SystemSource, endpointId);
    if custom in st.endpoints && (prefer == CustomSource || system !in st.endpoints) then Some(custom)
    else if system in st.endpoints then Some(system)
    else None
  }

  /** `LoadEndpointProfile` */
  function LoadEndpoint(st: Store, ws: string, kind: Kind, endpointId: string, prefer: Source): Option<Profile> {
    match SelectedEndpoint(st, ws, kind, endpointId, prefer)
    case None => None
    case Some(k) =>
      match VersionOf(st, k, st.endpoints[k])
      case None => None
      case Some(v) =>
        if v.state != Verified && v.state != Retired then None
        else if v.config.Malformed? || v.config.model.None? then None
        else Some(Profile(endpointId, kind, st.endpoints[k], v.provider, v.config.model.value, v.config, v.secret))
  }

  // ---------------------------------------------------------------- the resolver

  /** `resolveBinding` */
  function ResolveBinding(st: Store, ws: string, kind: Kind, binding: Binding, prefer: Source): Resolution {
    if binding.endpointId == "" then Unavailable(MissingEndpoint)
    else match LoadEndpoint(st, ws, kind, binding.endpointId, prefer)
         case None => Unavailable(EndpointNotLoaded)
         case Some(p) =>
           if p.endpointId != binding.endpointId || p.kind != kind || p.versionId == "" then
             Unavailable(IdentityMismatch)
           else
             Resolved(Capability(binding.mode, false, p.endpointId, p.versionId, p.provider, p.model, p.config,
                                 p.secret))
  }

  /** `ResolveChat`, by way of `resolveDirect` */
  function ResolveChat(st: Store, ws: string, prefer: Source): Resolution {
    if BindingKey(ws, LlmChat) !in st.bindings then Unavailable(NoBinding)
    else
      var binding := st.bindings[BindingKey(ws, LlmChat)];
      if binding.mode == Disabled then CapabilityDisabled
      else if binding.mode != Default && binding.mode != Custom then Unavailable(InvalidMode)
      else ResolveBinding(st, ws, LlmChat, binding, prefer)
  }

  /** `ResolveTranscription` */
  function ResolveTranscription(st: Store, ws: string, prefer: Source): Resolution {
    if BindingKey(ws, LlmTranscription) !in st.bindings then Unavailable(NoBinding)
    else
      var binding := st.bindings[BindingKey(ws, LlmTranscription)];
      match binding.mode
      case Disabled => CapabilityDisabled
      case ReuseChat =>
        (match ResolveChat(st, ws, prefer)
         case Resolved(chat) => Resolved(chat.(mode := ReuseChat, reusedChat := true))
         case CapabilityDisabled => CapabilityDisabled
         case Unavailable(cause) => Unavailable(cause))
      case Default => ResolveBinding(st, ws, LlmTranscription, binding, prefer)
      case Custom => ResolveBinding(st, ws, LlmTranscription, binding, prefer)
      case OtherMode(_) => Unavailable(InvalidMode)
  }

  // ---------------------------------------------------------------- what a reachable store resolves to

  /** The configuration of the version is an object whose model the resolver can read. */
  predicate Readable(v: Version) {
    v.config.Json? && v.config.model.Some?
  }

  /** What a binding to an endpoint for this version resolves to. */
  function ResolutionOf(b: Binding, versionId: string, v: Version): Resolution {
    if Readable(v) then
      Resolved(Capability(b.mode, false, b.endpointId, versionId, v.provider, v.config.model.value, v.config, v.secret))
    else Unavailable(EndpointNotLoaded)
  }

  /** In a reachable store the name alone selects the endpoint, whatever row the database prefers. */
  lemma SelectionIsUnambiguous(s: State, ws: string, kind: Kind, id: string, prefer: Source, prefer': Source)
    requires Inv(s)
    ensures SelectedEndpoint(s.store, ws, kind, id, prefer) == SelectedEndpoint(s.store, ws, kind, id, prefer')
  {
    hide Inv;
    NoNameIsShared(s, ws, kind, id);
  }

  lemma BoundRow(s: State, ws: string, kind: Kind)
    requires Inv(s) && BindingKey(ws, kind) in s.store.bindings
    ensures var b := s.store.bindings[BindingKey(ws, kind)];
      if b.source == NoSource then b.endpointId == ""
      else
        && (b.source == SystemSource || b.source == CustomSource)
        && EndpointKey(ws, kind, b.source, b.endpointId) in s.store.endpoints
  {
    hide Total;
    assert RowOk(s.store, BindingKey(ws, kind), s.store.bindings[BindingKey(ws, kind)]);
  }

  /** The endpoint selected for a binding is the bound one, whatever row the database prefers. */
  lemma SelectsBoundEndpoint(s: State, ws: string, kind: Kind, prefer: Source)
    requires Inv(s) && BindingKey(ws, kind) in s.store.bindings
    requires s.store.bindings[BindingKey(ws, kind)].source != NoSource
    ensures var b := s.store.bindings[BindingKey(ws, kind)]; var k := EndpointKey(ws, kind, b.source, b.endpointId);
      k in s.store.endpoints && SelectedEndpoint(s.store, ws, kind, b.endpointId, prefer) == Some(k)
  {
    hide Inv;
    BoundRow(s, ws, kind);
    NoNameIsShared(s, ws, kind, s.store.bindings[BindingKey(ws, kind)].endpointId);
  }

  lemma EndpointNamed(s: State, k: EndpointKey)
    requires Inv(s) && k in s.store.endpoints
    ensures k.id != "" && s.store.endpoints[k] != "" && Usable(VersionOf(s.store, k, s.store.endpoints[k]))
  {
    assert EndpointOk(s.store, k, s.store.endpoints[k]);
    if k.source == CustomSource {
      assert CustomName(s.store.endpoints[k])[0] == 'c';
    } else {
      assert SystemName(k.kind, s.store.endpoints[k])[0] == 's';
    }
  }

  /** A bound endpoint resolves to exactly what its version says, and to nothing else, whatever row the
      database prefers; it fails only for a version whose model cannot be read. */
  lemma BoundEndpointResolves(s: State, ws: string, kind: Kind, prefer: Source)
    requires Inv(s) && BindingKey(ws, kind) in s.store.bindings
    requires s.store.bindings[BindingKey(ws, kind)].source != NoSource
    ensures var st := s.store; var b := st.bindings[BindingKey(ws, kind)];
      var k := EndpointKey(ws, kind, b.source, b.endpointId);
      && k in st.endpoints && Usable(VersionOf(st, k, st.endpoints[k]))
      && ResolveBinding(st, ws, kind, b, prefer)
           == ResolutionOf(b, st.endpoints[k], VersionOf(st, k, st.endpoints[k]).value)
  {
    hide Inv, SelectedEndpoint, VersionOf;
    var b := s.store.bindings[BindingKey(ws, kind)];
    SelectsBoundEndpoint(s, ws, kind, prefer);
    EndpointNamed(s, EndpointKey(ws, kind, b.source, b.endpointId));
  }

  /** A provisioned workspace with chat switched on gets exactly what the version behind its chat binding
      says, whatever row the database prefers; switched off, it gets nothing else. */
  lemma ChatResolves(s: State, ws: string, prefer: Source)
    requires Inv(s) && ws in s.store.runtime
    ensures BindingKey(ws, LlmChat) in s.store.bindings
    ensures var st := s.store; var b := st.bindings[BindingKey(ws, LlmChat)];
      var k := EndpointKey(ws, LlmChat, b.source, b.endpointId); var r := ResolveChat(st, ws, prefer);
      && (r == CapabilityDisabled <==> b.mode == Disabled)
      && (b.mode != Disabled ==>
            && k in st.endpoints && VersionOf(st, k, st.endpoints[k]).Some?
            && r == ResolutionOf(b, st.endpoints[k], VersionOf(st, k, st.endpoints[k]).value))
  {
    hide Inv, ResolveBinding, VersionOf;
    BoundMode(s, ws, LlmChat);
    if s.store.bindings[BindingKey(ws, LlmChat)].source != NoSource {
      BoundEndpointResolves(s, ws, LlmChat, prefer);
    }
  }

  /** The same for transcription, which may reuse chat. */
  lemma TranscriptionResolves(s: State, ws: string, prefer: Source)
    requires Inv(s) && ws in s.store.runtime
    ensures BindingKey(ws, LlmTranscription) in s.store.bindings && BindingKey(ws, LlmChat) in s.store.bindings
    ensures var st := s.store; var b := st.bindings[BindingKey(ws, LlmTranscription)];
      var chat := st.bindings[BindingKey(ws, LlmChat)]; var used := if b.mode == ReuseChat then chat else b;
      var k := EndpointKey(ws, if b.mode == ReuseChat then LlmChat else LlmTranscription, used.source, used.endpointId);
      var r := ResolveTranscription(st, ws, prefer);
      && (r == CapabilityDisabled <==> used.mode == Disabled)
      && (used.mode != Disabled ==>
            && k in st.endpoints && VersionOf(st, k, st.endpoints[k]).Some?
            && var own := ResolutionOf(used, st.endpoints[k], VersionOf(st, k, st.endpoints[k]).value);
               r == if b.mode == ReuseChat && own.Resolved? then
                      Resolved(own.capability.(mode := ReuseChat, reusedChat := true))
                    else own)
  {
    hide Inv, ResolveBinding, VersionOf, ResolveChat;
    BoundMode(s, ws, LlmTranscription);
    ChatResolves(s, ws, prefer);
    if s.store.bindings[BindingKey(ws, LlmTranscription)].source != NoSource {
      BoundEndpointResolves(s, ws, LlmTranscription, prefer);
    }
  }

  /** In every run a provisioned workspace never meets a missing binding, an invalid mode, a missing
      endpoint or an identity mismatch, for chat or for transcription. */
  lemma ResolutionIsTotal(ops: seq<Op>, ws: string, prefer: Source)
    requires IsRun(INITIAL, ops) && ws in Run(INITIAL, ops).store.runtime
    ensures var st := Run(INITIAL, ops).store;
      && (ResolveChat(st, ws, prefer).Unavailable? ==> ResolveChat(st, ws, prefer).cause == EndpointNotLoaded)
      && (ResolveTranscription(st, ws, prefer).Unavailable? ==>
            ResolveTranscription(st, ws, prefer).cause == EndpointNotLoaded)
  {
    hide Inv, IsRun, Run, ResolveChat, ResolveTranscription;
    InitialInv();
    RunInv(INITIAL, ops);
    ResolutionInStore(Run(INITIAL, ops), ws, prefer);
  }

  lemma ResolutionInStore(s: State, ws: string, prefer: Source)
    requires Inv(s) && ws in s.store.runtime
    ensures ResolveChat(s.store, ws, prefer).Unavailable? ==>
            ResolveChat(s.store, ws, prefer).cause == EndpointNotLoaded
    ensures ResolveTranscription(s.store, ws, prefer).Unavailable? ==>
            ResolveTranscription(s.store, ws, prefer).cause == EndpointNotLoaded
  {
    hide ResolveBinding, Inv, Readable, VersionOf;
    BoundMode(s, ws, LlmChat);
    BoundMode(s, ws, LlmTranscription);
    if s.store.bindings[BindingKey(ws, LlmChat)].source != NoSource {
      BoundEndpointResolves(s, ws, LlmChat, prefer);
    }
    if s.store.bindings[BindingKey(ws, LlmTranscription)].source != NoSource {
      BoundEndpointResolves(s, ws, LlmTranscription, prefer);
    }
  }

  lemma BoundMode(s: State, ws: string, kind: Kind)
    requires Inv(s) && ws in s.store.runtime && ValidKind(kind)
    ensures BindingKey(ws, kind) in s.store.bindings
    ensures var b := s.store.bindings[BindingKey(ws, kind)];
      ValidBindingMode(kind, b.mode) && (b.mode == Default || b.mode == Custom <==> b.source != NoSource)
  {
    hide Total;
    assert RowOk(s.store, BindingKey(ws, kind), s.store.bindings[BindingKey(ws, kind)]);
  }

  /** Reuse follows one hop: the result is the chat result with the mode and the flag changed, and it
      fails exactly as chat fails. */
  lemma ReuseIsChat(st: Store, ws: string, prefer: Source)
    requires BindingKey(ws, LlmTranscription) in st.bindings
    requires st.bindings[BindingKey(ws, LlmTranscription)].mode == ReuseChat
    ensures var chat, r := ResolveChat(st, ws, prefer), ResolveTranscription(st, ws, prefer);
      if chat.Resolved? then
        r.Resolved? && r.capability == chat.capability.(mode := ReuseChat, reusedChat := true)
        && (chat.capability.mode == Default || chat.capability.mode == Custom) && !chat.capability.reusedChat
      else r == chat
  {
  }

  // ---------------------------------------------------------------- a resolution lasts as long as its revision

  /** While a workspace stays at one binding revision, a bound service keeps resolving to the same
      capability, whatever rows the database prefers: versions are immutable and endpoints are never
      rewritten. */
  lemma ResolutionIsStable(s: State, ops: seq<Op>, ws: string, kind: Kind, prefer: Source, prefer': Source)
    requires Inv(s) && IsRun(s, ops) && ws in s.store.runtime && BindingKey(ws, kind) in s.store.bindings
    requires ws in Run(s, ops).store.runtime
    requires Run(s, ops).store.runtime[ws].bindingRevision == s.store.runtime[ws].bindingRevision
    ensures var st, st' := s.store, Run(s, ops).store; var k := BindingKey(ws, kind);
      && k in st'.bindings && st'.bindings[k] == st.bindings[k]
      && ResolveBinding(st', ws, kind, st'.bindings[k], prefer') == ResolveBinding(st, ws, kind, st.bindings[k], prefer)
  {
    hide Inv, Run, IsRun, VersionOf, SelectedEndpoint, VersionsGrow;
    var st, st' := s.store, Run(s, ops).store;
    RevisionDeterminesBindings(s, ops, ws);
    StoreGrows(s, ops);
    RunInv(s, ops);
    var b := st.bindings[BindingKey(ws, kind)];
    BoundRow(s, ws, kind);
    if b.source != NoSource {
      BoundEndpointResolves(s, ws, kind, prefer);
      BoundEndpointResolves(Run(s, ops), ws, kind, prefer');
      SameResolution(st, st', EndpointKey(ws, kind, b.source, b.endpointId), b);
    }
  }

  lemma SameResolution(st: Store, st': Store, k: EndpointKey, b: Binding)
    requires VersionsGrow(st, st') && k in st.endpoints && Usable(VersionOf(st, k, st.endpoints[k]))
    ensures Usable(VersionOf(st', k, st.endpoints[k]))
    ensures ResolutionOf(b, st.endpoints[k], VersionOf(st, k, st.endpoints[k]).value)
      == ResolutionOf(b, st.endpoints[k], VersionOf(st', k, st.endpoints[k]).value)
  {
  }
}
