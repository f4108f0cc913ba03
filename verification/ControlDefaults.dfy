/** Reconciling the system defaults of backend/internal/controlsettings/system_defaults.go: when it
    succeeds, what it hands to provisioning, and what a restart does. */
module ControlDefaults {
  import opened Wrappers
  import opened ControlStore
  import opened ControlRuns

  // ---------------------------------------------------------------- one turn

  /** The system versions of a kind are the same in both stores. */
  predicate SameOfKind(st: Store, t: Store, kind: Kind) {
    && (forall k :: k in st.systemVersions && k.kind == kind ==>
          k in t.systemVersions && t.systemVersions[k] == st.systemVersions[k])
    && (forall k :: k in t.systemVersions && k.kind == kind ==> k in st.systemVersions)
  }

  lemma LatestFollows(st: Store, t: Store, kind: Kind, familyId: string, k: SystemKey)
    requires SameOfKind(st, t, kind) && IsLatest(st, kind, familyId, k)
    ensures IsLatest(t, kind, familyId, k)
  {
    forall l | l in t.systemVersions && InSystemFamily(t, kind, familyId, l)
      ensures t.systemVersions[l].number <= t.systemVersions[k].number
    {
      assert InSystemFamily(st, kind, familyId, l);
    }
  }

  /** The candidate of the specification is stored, or can be. */
  ghost predicate CanReconcile(st: Store, c: SystemSpec) {
    && ValidCandidate(c)
    && (SystemKey(c.kind, c.candidateId) !in st.systemVersions
        || (HasSystemVersion(st, c.kind, c.familyId) && Meets(st.systemVersions[Latest(st, c.kind, c.familyId)], c)))
  }

  lemma CanFollows(st: Store, t: Store, c: SystemSpec)
    requires UniqueSystemNumbers(st) && UniqueSystemNumbers(t) && SameOfKind(st, t, c.kind)
    ensures CanReconcile(st, c) ==> CanReconcile(t, c)
  {
    hide UniqueSystemNumbers, IsLatest, ValidCandidate, Meets;
    if HasSystemVersion(st, c.kind, c.familyId) {
      var k := Latest(st, c.kind, c.familyId);
      LatestFollows(st, t, c.kind, c.familyId, k);
      LatestIsUnique(t, c.kind, c.familyId, k);
      LatestInFamily(st, c.kind, c.familyId, k);
    }
  }

  lemma LatestInFamily(st: Store, kind: Kind, familyId: string, k: SystemKey)
    requires IsLatest(st, kind, familyId, k)
    ensures k in st.systemVersions && k.kind == kind
  {
  }

  lemma SameBack(st: Store, t: Store, kind: Kind)
    requires SameOfKind(st, t, kind)
    ensures SameOfKind(t, st, kind)
  {
  }

  /** The version is the latest of its family, says what the specification asks for, and is no draft. */
  predicate Settled(st: Store, c: SystemSpec, k: SystemKey) {
    && IsLatest(st, c.kind, c.familyId, k) && Meets(st.systemVersions[k], c) && st.systemVersions[k].state != Draft
  }

  lemma SettledFollows(st: Store, t: Store, c: SystemSpec, k: SystemKey)
    requires SameOfKind(st, t, c.kind) && Settled(st, c, k)
    ensures Settled(t, c, k)
  {
    hide IsLatest;
    LatestFollows(st, t, c.kind, c.familyId, k);
    LatestInFamily(st, c.kind, c.familyId, k);
  }

  /** A turn changes system versions of its own kind alone, and none that was there is lost. */
  lemma OneFrame(st: Store, c: SystemSpec)
    ensures var t := ReconcileOne(st, c).0;
      t == st.(systemVersions := t.systemVersions) && VersionsGrow(st, t)
    ensures forall kind :: kind != c.kind ==> SameOfKind(st, ReconcileOne(st, c).0, kind)
  {
    hide Candidate, VerifySystemVersion;
    CandidateFrame(st, c);
    OtherKinds(st, c);
    if Candidate(st, c).2 == Ok {
      CandidateInKind(st, c);
      VerifyInKind(Candidate(st, c).0, Candidate(st, c).1.value);
    }
    NothingLost(st, ReconcileOne(st, c).0);
    forall kind | kind != c.kind
      ensures SameOfKind(st, ReconcileOne(st, c).0, kind)
    {
      assert SameOfKind(st, Candidate(st, c).0, kind);
    }
  }

  lemma OtherKinds(st: Store, c: SystemSpec)
    ensures forall kind :: kind != c.kind ==> SameOfKind(st, Candidate(st, c).0, kind)
  {
    hide HasSystemVersion, Meets, ValidCandidate, IsLatest;
  }

  lemma VerifyInKind(st: Store, k: SystemKey)
    ensures var t := VerifySystemVersion(st, k).0;
      && t == st.(systemVersions := t.systemVersions) && t.systemVersions.Keys == st.systemVersions.Keys
      && (forall l :: l in st.systemVersions && l != k ==> t.systemVersions[l] == st.systemVersions[l])
      && (k in st.systemVersions ==> SameProfile(st.systemVersions[k], t.systemVersions[k]))
  {
  }

  lemma NothingLost(st: Store, t: Store)
    requires t.versions == st.versions
    requires forall k :: k in st.systemVersions ==>
               k in t.systemVersions && SameProfile(st.systemVersions[k], t.systemVersions[k])
    ensures VersionsGrow(st, t)
  {
  }

  lemma CandidateInKind(st: Store, c: SystemSpec)
    requires Candidate(st, c).2 == Ok
    ensures Candidate(st, c).1.value.kind == c.kind
  {
    hide HasSystemVersion, Meets, ValidCandidate;
    if HasSystemVersion(st, c.kind, c.familyId) {
      LatestInFamily(st, c.kind, c.familyId, Latest(st, c.kind, c.familyId));
    }
  }

  /** A turn succeeds exactly when it can. */
  lemma OneSucceedsIff(st: Store, c: SystemSpec)
    ensures ReconcileOne(st, c).2 == Ok <==> CanReconcile(st, c)
  {
    hide HasSystemVersion, IsLatest, ValidCandidate, Meets, VerifySystemVersion;
  }

  /** The version a turn stores is the latest of its family. */
  lemma AddedIsLatest(st: Store, c: SystemSpec, number: nat)
    requires SystemKey(c.kind, c.candidateId) !in st.systemVersions
    requires forall l :: l in st.systemVersions && InSystemFamily(st, c.kind, c.familyId, l) ==>
               st.systemVersions[l].number < number
    ensures IsLatest(AddCandidate(st, c, number).0, c.kind, c.familyId, SystemKey(c.kind, c.candidateId))
  {
    var t := AddCandidate(st, c, number).0;
    var k := SystemKey(c.kind, c.candidateId);
    forall l | l in t.systemVersions && InSystemFamily(t, c.kind, c.familyId, l)
      ensures t.systemVersions[l].number <= t.systemVersions[k].number
    {
      assert l != k ==> InSystemFamily(st, c.kind, c.familyId, l);
    }
  }

  lemma CandidateIsLatest(st: Store, c: SystemSpec)
    requires Candidate(st, c).2 == Ok
    ensures var (t, k, _) := Candidate(st, c);
      IsLatest(t, c.kind, c.familyId, k.value) && Meets(t.systemVersions[k.value], c)
  {
    if !HasSystemVersion(st, c.kind, c.familyId) {
      AddedIsLatest(st, c, 1);
    } else if !Meets(st.systemVersions[Latest(st, c.kind, c.familyId)], c) {
      AddedIsLatest(st, c, st.systemVersions[Latest(st, c.kind, c.familyId)].number + 1);
    }
  }

  lemma VerifyKeepsLatest(st: Store, v: SystemKey, c: SystemSpec, k: SystemKey)
    requires IsLatest(st, c.kind, c.familyId, k) && Meets(st.systemVersions[k], c)
    ensures var t := VerifySystemVersion(st, v).0;
      IsLatest(t, c.kind, c.familyId, k) && Meets(t.systemVersions[k], c)
    ensures st.systemVersions[k].state != Draft || v == k ==>
      VerifySystemVersion(st, v).0.systemVersions[k].state != Draft
  {
    var t := VerifySystemVersion(st, v).0;
    forall l | l in t.systemVersions && InSystemFamily(t, c.kind, c.familyId, l)
      ensures t.systemVersions[l].number <= t.systemVersions[k].number
    {
      assert InSystemFamily(st, c.kind, c.familyId, l);
    }
  }

  /** A turn leaves its specification settled at the version it returns. */
  lemma OneSettles(st: Store, c: SystemSpec)
    requires ReconcileOne(st, c).2 == Ok
    ensures Settled(ReconcileOne(st, c).0, c, ReconcileOne(st, c).1.value)
  {
    hide Candidate, VerifySystemVersion, IsLatest, Meets;
    CandidateIsLatest(st, c);
    var (t, k, _) := Candidate(st, c);
    VerifyKeepsLatest(t, k.value, c, k.value);
  }

  /** A turn for a settled specification changes nothing, whatever candidate it brings. */
  lemma SettledOne(st: Store, c: SystemSpec, k: SystemKey)
    requires UniqueSystemNumbers(st) && Settled(st, c, k) && ValidCandidate(c)
    ensures ReconcileOne(st, c) == (st, Some(k), Ok)
  {
    hide UniqueSystemNumbers, IsLatest, ValidCandidate;
    LatestIsUnique(st, c.kind, c.familyId, k);
  }

  // ---------------------------------------------------------------- all turns

  predicate DistinctKinds(specs: seq<SystemSpec>, seen: set<Kind>) {
    && (forall i :: 0 <= i < |specs| ==> specs[i].kind !in seen && ValidDefaultMode(specs[i].kind, specs[i].mode))
    && (forall i, j :: 0 <= i < j < |specs| ==> specs[i].kind != specs[j].kind)
  }

  lemma DistinctStep(specs: seq<SystemSpec>, seen: set<Kind>)
    requires |specs| > 0
    ensures DistinctKinds(specs, seen) <==>
      && specs[0].kind !in seen && ValidDefaultMode(specs[0].kind, specs[0].mode)
      && DistinctKinds(specs[1..], seen + {specs[0].kind})
  {
    hide ValidDefaultMode;
    if DistinctKinds(specs[1..], seen + {specs[0].kind}) {
      assert forall i :: 0 < i < |specs| ==> specs[i] == specs[1..][i - 1];
    }
  }

  /** The turns leave the kinds that were seen alone, and lose nothing. */
  lemma {:induction false} FromFrame(st: Store, specs: seq<SystemSpec>, seen: set<Kind>, kind: Kind)
    requires UniqueSystemNumbers(st)
    ensures var t := ReconcileFrom(st, specs, seen).0;
      && t == st.(systemVersions := t.systemVersions) && VersionsGrow(st, t) && UniqueSystemNumbers(t)
      && (kind in seen ==> SameOfKind(st, t, kind))
    decreases |specs|
  {
    hide UniqueSystemNumbers, ReconcileOne, VersionsGrow, SameOfKind, ValidDefaultMode;
    NothingChanges(st, kind);
    if |specs| > 0 && specs[0].kind !in seen && ValidDefaultMode(specs[0].kind, specs[0].mode) {
      var u := ReconcileOne(st, specs[0]).0;
      OneFrame(st, specs[0]);
      OneKeepsUnique(st, specs[0]);
      FromFrame(u, specs[1..], seen + {specs[0].kind}, kind);
      var t := ReconcileFrom(u, specs[1..], seen + {specs[0].kind}).0;
      BothChange(st, u, t, kind);
    }
  }

  lemma NothingChanges(st: Store, kind: Kind)
    ensures VersionsGrow(st, st) && SameOfKind(st, st, kind)
  {
  }

  lemma BothChange(a: Store, b: Store, c: Store, kind: Kind)
    requires VersionsGrow(a, b) && VersionsGrow(b, c)
    ensures VersionsGrow(a, c)
    ensures SameOfKind(a, b, kind) && SameOfKind(b, c, kind) ==> SameOfKind(a, c, kind)
  {
  }

  /** The turns succeed exactly when the kinds are different and every candidate is stored or can be. */
  lemma {:induction false} FromSucceedsIff(st: Store, specs: seq<SystemSpec>, seen: set<Kind>)
    requires UniqueSystemNumbers(st)
    ensures ReconcileFrom(st, specs, seen).2 == Ok <==>
      DistinctKinds(specs, seen) && forall i :: 0 <= i < |specs| ==> CanReconcile(st, specs[i])
    decreases |specs|
  {
    hide UniqueSystemNumbers, ReconcileOne, CanReconcile, DistinctKinds, ValidDefaultMode, SameOfKind, VersionsGrow;
    if |specs| == 0 {
      NoneIsDistinct(seen);
    } else {
      DistinctStep(specs, seen);
      OneSucceedsIff(st, specs[0]);
      if specs[0].kind !in seen && ValidDefaultMode(specs[0].kind, specs[0].mode) && CanReconcile(st, specs[0]) {
        var u := ReconcileOne(st, specs[0]).0;
        OneFrame(st, specs[0]);
        OneKeepsUnique(st, specs[0]);
        FromSucceedsIff(u, specs[1..], seen + {specs[0].kind});
        if DistinctKinds(specs[1..], seen + {specs[0].kind}) {
          CanFollowAll(st, u, specs, seen);
        }
      }
    }
  }

  lemma NoneIsDistinct(seen: set<Kind>)
    ensures DistinctKinds([], seen)
  {
  }

  lemma CanFollowAll(st: Store, u: Store, specs: seq<SystemSpec>, seen: set<Kind>)
    requires |specs| > 0 && DistinctKinds(specs, seen) && UniqueSystemNumbers(st) && UniqueSystemNumbers(u)
    requires forall kind :: kind != specs[0].kind ==> SameOfKind(st, u, kind)
    ensures (forall i :: 0 <= i < |specs| - 1 ==> CanReconcile(u, specs[1..][i]))
      <==> (forall i :: 1 <= i < |specs| ==> CanReconcile(st, specs[i]))
  {
    hide UniqueSystemNumbers, CanReconcile, SameOfKind, ValidDefaultMode;
    forall i | 1 <= i < |specs|
      ensures CanReconcile(u, specs[i]) <==> CanReconcile(st, specs[i])
    {
      assert SameOfKind(st, u, specs[i].kind);
      SameBack(st, u, specs[i].kind);
      CanFollows(st, u, specs[i]);
      CanFollows(u, st, specs[i]);
    }
    assert forall i :: 0 <= i < |specs| - 1 ==> specs[1..][i] == specs[i + 1];
    assert forall i :: 1 <= i < |specs| ==> specs[i] == specs[1..][i - 1];
  }

  /** The default answers its specification: it names the version that settles it. */
  predicate Answers(st: Store, c: SystemSpec, item: DefaultBinding) {
    item == DefaultOf(c, SystemKey(c.kind, item.versionId)) && Settled(st, c, SystemKey(c.kind, item.versionId))
  }

  lemma AnswerFollows(st: Store, t: Store, c: SystemSpec, item: DefaultBinding)
    requires SameOfKind(st, t, c.kind) && Answers(st, c, item)
    ensures Answers(t, c, item)
  {
    hide Settled;
    SettledFollows(st, t, c, SystemKey(c.kind, item.versionId));
  }

  lemma OneAnswers(st: Store, c: SystemSpec)
    requires ReconcileOne(st, c).2 == Ok
    ensures var (t, k, _) := ReconcileOne(st, c); Answers(t, c, DefaultOf(c, k.value))
  {
    hide ReconcileOne;
    OneSettles(st, c);
    LatestInFamily(ReconcileOne(st, c).0, c.kind, c.familyId, ReconcileOne(st, c).1.value);
  }

  lemma {:induction false} FromAnswers(st: Store, specs: seq<SystemSpec>, seen: set<Kind>)
    requires UniqueSystemNumbers(st) && ReconcileFrom(st, specs, seen).2 == Ok
    ensures var (t, items, _) := ReconcileFrom(st, specs, seen);
      |items| == |specs| && forall i :: 0 <= i < |specs| ==> Answers(t, specs[i], items[i])
    decreases |specs|
  {
    hide UniqueSystemNumbers, ReconcileOne, Answers, SameOfKind, ValidDefaultMode, VersionsGrow, DefaultOf;
    if |specs| > 0 {
      var (u, k, _) := ReconcileOne(st, specs[0]);
      var (t, items, _) := ReconcileFrom(st, specs, seen);
      OneKeepsUnique(st, specs[0]);
      OneAnswers(st, specs[0]);
      FromAnswers(u, specs[1..], seen + {specs[0].kind});
      FromFrame(u, specs[1..], seen + {specs[0].kind}, specs[0].kind);
      AnswerFollows(u, t, specs[0], DefaultOf(specs[0], k.value));
      forall i | 0 <= i < |specs|
        ensures Answers(t, specs[i], items[i])
      {
        assert i > 0 ==> specs[i] == specs[1..][i - 1] && items[i] == items[1..][i - 1];
      }
    }
  }

  // ---------------------------------------------------------------- what is handed to provisioning

  /** Reconciling succeeds exactly for four specifications of different kinds with valid modes, each of
      which is the latest version of its family or brings an unused identifier. */
  lemma ReconcileSucceedsIff(st: Store, specs: seq<SystemSpec>)
    requires UniqueSystemNumbers(st)
    ensures Reconcile(st, specs).2 == Ok <==>
      |specs| == 4 && DistinctKinds(specs, {}) && forall i :: 0 <= i < |specs| ==> CanReconcile(st, specs[i])
  {
    hide UniqueSystemNumbers, DistinctKinds, CanReconcile;
    FromSucceedsIff(st, specs, {});
  }

  lemma AnswerIsReconciled(st: Store, c: SystemSpec, item: DefaultBinding)
    requires Answers(st, c, item)
    ensures ReconciledItem(st, item) && item.kind == c.kind && item.mode == c.mode
  {
    hide SystemName;
  }

  /** What it returns is what provisioning asks for: four complete defaults, each behind the endpoint
      named after a stored version that is no draft and says what its specification asks for. */
  lemma ReconcileReturns(s: State, specs: seq<SystemSpec>)
    requires Inv(s) && Reconcile(s.store, specs).2 == Ok
    ensures var (t, items, _) := Reconcile(s.store, specs);
      && ValidDefaults(items) && Reconciled(t, items)
      && forall i :: 0 <= i < 4 ==> Answers(t, specs[i], items[i])
  {
    hide Answers, DistinctKinds, CanReconcile, EndpointsOk, BindingsOk, UniqueSystemNumbers, ValidDefaultMode,
      ReconciledItem;
    var (t, items, _) := Reconcile(s.store, specs);
    FromAnswers(s.store, specs, {});
    ReconcileSucceedsIff(s.store, specs);
    forall i | 0 <= i < 4
      ensures ReconciledItem(t, items[i]) && items[i].kind == specs[i].kind && items[i].mode == specs[i].mode
    {
      AnswerIsReconciled(t, specs[i], items[i]);
    }
    var ops := ReconcileIsRun(s, specs, {});
    RunInv(s, ops);
    CompleteDefaults(State(t, s.pending), specs, items);
  }

  lemma CompleteDefaults(s: State, specs: seq<SystemSpec>, items: seq<DefaultBinding>)
    requires EndpointsOk(s) && |specs| == 4 && |items| == 4 && DistinctKinds(specs, {}) && Reconciled(s.store, items)
    requires forall i :: 0 <= i < 4 ==> items[i].kind == specs[i].kind && items[i].mode == specs[i].mode
    ensures ValidDefaults(items)
  {
    hide EndpointOk, ValidDefaultMode;
    forall i | 0 <= i < 4
      ensures items[i].endpointId != "" && items[i].versionId != ""
    {
      assert ReconciledItem(s.store, items[i]);
      assert SystemKey(items[i].kind, items[i].versionId) in s.store.systemVersions;
      assert SystemName(items[i].kind, items[i].versionId)[0] == 's';
    }
  }

  /** The turns are steps of a run. */
  lemma {:induction false} ReconcileIsRun(s: State, specs: seq<SystemSpec>, seen: set<Kind>) returns (ops: seq<Op>)
    ensures IsRun(s, ops) && Run(s, ops) == s.(store := ReconcileFrom(s.store, specs, seen).0)
    decreases |specs|
  {
    hide Candidate, VerifySystemVersion, ValidDefaultMode, DefaultOf;
    ops := [];
    if |specs| > 0 && specs[0].kind !in seen && ValidDefaultMode(specs[0].kind, specs[0].mode) {
      var first := OneIsRun(s, specs[0]);
      var u := s.(store := ReconcileOne(s.store, specs[0]).0);
      if ReconcileOne(s.store, specs[0]).2 != Ok {
        ops := first;
      } else {
        var rest := ReconcileIsRun(u, specs[1..], seen + {specs[0].kind});
        RunInParts(s, first, rest);
        ops := first + rest;
      }
    }
  }

  lemma OneIsRun(s: State, c: SystemSpec) returns (ops: seq<Op>)
    ensures IsRun(s, ops) && Run(s, ops) == s.(store := ReconcileOne(s.store, c).0)
  {
    hide Candidate, VerifySystemVersion;
    ops := [CandidateOp(c)];
    var t := Step(s, ops[0]);
    assert ops[1..] == [];
    if Candidate(s.store, c).2 == Ok {
      var verify := [VerifySystemOp(Candidate(s.store, c).1.value)];
      assert verify[1..] == [];
      assert Run(t, verify) == s.(store := ReconcileOne(s.store, c).0);
      assert IsRun(t, verify);
      RunInParts(s, ops, verify);
      ops := ops + verify;
    }
  }

  /** From every reachable store, reconciling four specifications that can be reconciled and provisioning
      a workspace with the result is a run, and it leaves the workspace provisioned. */
  lemma ProvisionedIsReached(s: State, specs: seq<SystemSpec>, ws: string) returns (ops: seq<Op>)
    requires Inv(s) && ws != "" && Reconcile(s.store, specs).2 == Ok
    ensures IsRun(s, ops) && ws in Run(s, ops).store.runtime && AllUsable(Run(s, ops).store)
  {
    hide EndpointsOk, BindingsOk, UniqueSystemNumbers, ValidDefaults, Answers, Reconciled, Provision, ReconcileFrom;
    var (t, items, _) := Reconcile(s.store, specs);
    var first := ReconcileIsRun(s, specs, {});
    RunInv(s, first);
    ReconcileReturns(s, specs);
    var u := State(t, s.pending);
    var last := [ProvisionOp(ws, items)];
    OneStep(u, last[0]);
    RunInParts(s, first, last);
    ops := first + last;
    ProvisionReconciled(t, ws, items);
    RunInv(s, ops);
    InvIsUsable(Run(s, ops));
  }

  // ---------------------------------------------------------------- the defaults of a running server

  /** Defaults that were reconciled once stay so, whatever is called later. */
  lemma DefaultsLast(s: State, ops: seq<Op>, items: seq<DefaultBinding>)
    requires Reconciled(s.store, items)
    ensures Reconciled(Run(s, ops).store, items)
  {
    hide Run, VersionsGrow, Reconciled;
    StoreGrows(s, ops);
    GrowKeepsReconciled(s.store, Run(s, ops).store, items);
  }

  /** A call of servers that provision with the lists they reconciled when they started. */
  predicate ServerCall(op: Op, lists: set<seq<DefaultBinding>>) {
    match op
    case CheckEndpointOp(_, k, versionId) => k.source == CustomSource && Named(k, versionId)
    case ProvisionOp(_, defaults) => defaults in lists
    case _ => true
  }

  /** Whatever such servers call, in any order, is a run: no provisioning ever meets a store in which its
      defaults are missing or drafts. */
  lemma {:induction false} ServersRun(s: State, ops: seq<Op>, lists: set<seq<DefaultBinding>>)
    requires forall items :: items in lists ==> Reconciled(s.store, items)
    requires forall i :: 0 <= i < |ops| ==> ServerCall(ops[i], lists)
    ensures IsRun(s, ops)
    decreases |ops|
  {
    hide Step, Reconciled, Named;
    if |ops| > 0 {
      assert ServerCall(ops[0], lists);
      forall items | items in lists
        ensures Reconciled(Step(s, ops[0]).store, items)
      {
        StepGrows(s, ops[0]);
        GrowKeepsReconciled(s.store, Step(s, ops[0]).store, items);
      }
      ServersRun(Step(s, ops[0]), ops[1..], lists);
    }
  }

  /** At any time after the start every further workspace can be provisioned with the defaults of the
      start, and what it is bound to is usable. */
  lemma LaterProvisioning(s: State, specs: seq<SystemSpec>, ops: seq<Op>, ws: string)
    requires Inv(s) && Reconcile(s.store, specs).2 == Ok && ws != ""
    requires IsRun(State(Reconcile(s.store, specs).0, s.pending), ops)
    ensures var (t, items, _) := Reconcile(s.store, specs); var u := Run(State(t, s.pending), ops);
      var (v, err) := Provision(u.store, ws, items);
      Enabled(u, ProvisionOp(ws, items)) && err == Ok && ws in v.runtime && AllUsable(v)
  {
    hide EndpointsOk, BindingsOk, UniqueSystemNumbers, ValidDefaults, Answers, Reconciled, Provision, ReconcileFrom,
      Run, IsRun;
    var (t, items, _) := Reconcile(s.store, specs);
    var x := State(t, s.pending);
    ReconcileReturns(s, specs);
    var first := ReconcileIsRun(s, specs, {});
    RunInv(s, first);
    RunInv(x, ops);
    DefaultsLast(x, ops, items);
    var u := Run(x, ops);
    ProvisionReconciled(u.store, ws, items);
    StepInv(u, ProvisionOp(ws, items));
    InvIsUsable(Step(u, ProvisionOp(ws, items)));
  }

  lemma OneStep(s: State, op: Op)
    requires Enabled(s, op)
    ensures IsRun(s, [op]) && Run(s, [op]) == Step(s, op)
  {
    hide Enabled, Step;
    assert [op][1..] == [];
  }

  lemma ProvisionReconciled(st: Store, ws: string, items: seq<DefaultBinding>)
    requires ws != "" && ValidDefaults(items) && Reconciled(st, items)
    ensures Provision(st, ws, items).1 == Ok && ws in Provision(st, ws, items).0.runtime
  {
    hide Provision, ValidDefaults, SystemName;
    ProvisionSucceedsIff(st, ws, items);
    forall i | 0 <= i < |items|
      ensures CanStore(st, ws, items[i])
    {
      assert ReconciledItem(st, items[i]);
    }
  }

  lemma InvIsUsable(s: State)
    requires Inv(s)
    ensures AllUsable(s.store)
  {
    hide Named, Usable, BindingsOk, UniqueSystemNumbers;
    forall k | k in s.store.endpoints
      ensures Usable(VersionOf(s.store, k, s.store.endpoints[k]))
    {
      assert EndpointOk(s.store, k, s.store.endpoints[k]);
    }
  }

  /** The first start of a server: four complete specifications of different kinds are enough. */
  lemma FirstStart(specs: seq<SystemSpec>, ws: string) returns (ops: seq<Op>)
    requires |specs| == 4 && DistinctKinds(specs, {}) && ws != ""
    requires forall i :: 0 <= i < 4 ==> ValidCandidate(specs[i])
    ensures IsRun(INITIAL, ops) && ws in Run(INITIAL, ops).store.runtime
  {
    hide Inv, DistinctKinds, ValidCandidate, Reconcile, IsRun, Run, UniqueSystemNumbers;
    InitialInv();
    EmptyIsUnique();
    ReconcileSucceedsIff(EMPTY, specs);
    ops := ProvisionedIsReached(INITIAL, specs, ws);
  }

  lemma EmptyIsUnique()
    ensures UniqueSystemNumbers(EMPTY)
  {
  }

  // ---------------------------------------------------------------- provisioning without reconciling

  /** The drafts of the specifications are stored. */
  predicate Drafted(st: Store, specs: seq<SystemSpec>) {
    forall i :: 0 <= i < |specs| ==> IsDrafted(st, specs[i])
  }

  predicate IsDrafted(st: Store, c: SystemSpec) {
    var k := SystemKey(c.kind, c.candidateId);
    k in st.systemVersions && st.systemVersions[k].state == Draft
  }

  lemma CandidateDrafted(st: Store, c: SystemSpec)
    requires ValidCandidate(c) && forall k :: k in st.systemVersions ==> k.kind != c.kind
    ensures Candidate(st, c) == AddCandidate(st, c, 1) && IsDrafted(Candidate(st, c).0, c)
  {
  }

  lemma {:induction false} CandidatesRun(s: State, specs: seq<SystemSpec>) returns (ops: seq<Op>)
    requires forall i :: 0 <= i < |specs| ==> ValidCandidate(specs[i])
    requires forall i, j :: 0 <= i < j < |specs| ==> specs[i].kind != specs[j].kind
    requires forall i, k :: 0 <= i < |specs| && k in s.store.systemVersions ==> k.kind != specs[i].kind
    ensures IsRun(s, ops) && Drafted(Run(s, ops).store, specs)
    ensures var st, t := s.store, Run(s, ops).store;
      && t == st.(systemVersions := t.systemVersions)
      && forall k :: k in st.systemVersions ==> k in t.systemVersions && t.systemVersions[k] == st.systemVersions[k]
    decreases |specs|
  {
    hide Candidate, ValidCandidate;
    ops := [];
    if |specs| > 0 {
      CandidateDrafted(s.store, specs[0]);
      var u := Step(s, CandidateOp(specs[0]));
      OneStep(s, CandidateOp(specs[0]));
      forall i, k | 0 <= i < |specs| - 1 && k in u.store.systemVersions
        ensures k.kind != specs[1..][i].kind
      {
        assert specs[1..][i] == specs[i + 1];
      }
      var rest := CandidatesRun(u, specs[1..]);
      RunInParts(s, [CandidateOp(specs[0])], rest);
      ops := [CandidateOp(specs[0])] + rest;
      forall i | 0 <= i < |specs|
        ensures IsDrafted(Run(s, ops).store, specs[i])
      {
        assert i > 0 ==> specs[i] == specs[1..][i - 1] && IsDrafted(Run(u, rest).store, specs[1..][i - 1]);
      }
    }
  }

  /** The defaults of the drafts, as a caller who skips the reconciliation could put them together. */
  function DraftDefaults(specs: seq<SystemSpec>): (items: seq<DefaultBinding>)
    ensures |items| == |specs|
  {
    seq(|specs|, i requires 0 <= i < |specs| => DefaultOf(specs[i], SystemKey(specs[i].kind, specs[i].candidateId)))
  }

  /** The call itself accepts drafts: in a store that a run reaches by storing four candidates and marking
      none, it succeeds and stores endpoints that cannot be used. It is the reconciliation in front of it
      that keeps drafts out. */
  lemma DraftsAreProvisioned(specs: seq<SystemSpec>, ws: string) returns (ops: seq<Op>)
    requires |specs| == 4 && DistinctKinds(specs, {}) && ws != ""
    requires forall i :: 0 <= i < 4 ==> ValidCandidate(specs[i])
    ensures IsRun(INITIAL, ops)
    ensures var st := Run(INITIAL, ops).store; var items := DraftDefaults(specs);
      Provision(st, ws, items).1 == Ok && !AllUsable(Provision(st, ws, items).0) && !Reconciled(st, items)
  {
    hide Provision, IsRun, Run, ValidCandidate, ValidDefaultMode, SystemName;
    ops := CandidatesRun(INITIAL, specs);
    var st, items := Run(INITIAL, ops).store, DraftDefaults(specs);
    forall i | 0 <= i < 4
      ensures CanStore(st, ws, items[i]) && NewDraft(st, ws, items[i])
    {
      assert IsDrafted(st, specs[i]);
    }
    CompleteDrafts(specs);
    ProvisionSucceedsIff(st, ws, items);
    assert NewDraft(st, ws, items[0]);
    ProvisionUsableIff(st, ws, items);
    ReconciledHasNoDraft(st, ws, items);
  }

  lemma ReconciledHasNoDraft(st: Store, ws: string, items: seq<DefaultBinding>)
    ensures DraftDefault(st, ws, items) ==> !Reconciled(st, items)
  {
    hide Reconciled, DraftDefault;
    if Reconciled(st, items) {
      ReconciledIsNoDraft(st, ws, items);
    }
  }

  lemma CompleteDrafts(specs: seq<SystemSpec>)
    requires |specs| == 4 && DistinctKinds(specs, {}) && forall i :: 0 <= i < 4 ==> ValidCandidate(specs[i])
    ensures ValidDefaults(DraftDefaults(specs))
  {
    hide ValidDefaultMode;
    forall i | 0 <= i < 4
      ensures DraftDefaults(specs)[i].endpointId != "" && DraftDefaults(specs)[i].versionId != ""
    {
      assert ValidCandidate(specs[i]);
      assert SystemName(specs[i].kind, specs[i].candidateId)[0] == 's';
    }
  }

  // ---------------------------------------------------------------- a restart

  /** The same specification with another candidate. */
  predicate SameSpec(c: SystemSpec, d: SystemSpec) {
    d == c.(candidateId := d.candidateId) && d.candidateId != ""
  }

  lemma SettledStep(s: State, op: Op, c: SystemSpec, k: SystemKey)
    requires Settled(s.store, c, k) && !op.CandidateOp?
    ensures Settled(Step(s, op).store, c, k)
  {
    hide IsLatest, Meets, CreateVersionTx, ProvisionItems;
    match op
    case VerifySystemOp(v) => VerifyKeepsLatest(s.store, v, c, k);
    case CreateVersionOp(version) =>
      CreateFrame(s.store, version);
      SameSystemVersions(s.store, Step(s, op).store, c, k);
    case ProvisionOp(ws, defaults) =>
      ProvisionFrame(s.store, ws, defaults);
      SameSystemVersions(s.store, Step(s, op).store, c, k);
    case _ =>
      if Quiet(op) {
        QuietStep(s, op);
      }
      SameSystemVersions(s.store, Step(s, op).store, c, k);
  }

  lemma SameSystemVersions(st: Store, t: Store, c: SystemSpec, k: SystemKey)
    requires t.systemVersions == st.systemVersions && Settled(st, c, k)
    ensures Settled(t, c, k)
  {
    SettledFollows(st, t, c, k);
  }

  lemma {:induction false} SettledRun(s: State, ops: seq<Op>, c: SystemSpec, k: SystemKey)
    requires Settled(s.store, c, k) && forall i :: 0 <= i < |ops| ==> !ops[i].CandidateOp?
    ensures Settled(Run(s, ops).store, c, k)
    decreases |ops|
  {
    hide Step, Settled;
    if |ops| > 0 {
      SettledStep(s, ops[0], c, k);
      SettledRun(Step(s, ops[0]), ops[1..], c, k);
    }
  }

  lemma {:induction false} SettledFrom(st: Store, specs: seq<SystemSpec>, items: seq<DefaultBinding>, seen: set<Kind>)
    requires UniqueSystemNumbers(st) && DistinctKinds(specs, seen) && |items| == |specs|
    requires forall i :: 0 <= i < |specs| ==> ValidCandidate(specs[i]) && Answers(st, specs[i], items[i])
    ensures ReconcileFrom(st, specs, seen) == (st, items, Ok)
    decreases |specs|
  {
    hide UniqueSystemNumbers, DistinctKinds, ValidDefaultMode, ValidCandidate, Settled, ReconcileOne, SystemName;
    if |specs| > 0 {
      DistinctStep(specs, seen);
      var k := SystemKey(specs[0].kind, items[0].versionId);
      assert Answers(st, specs[0], items[0]);
      SettledOne(st, specs[0], k);
      forall i | 0 <= i < |specs| - 1
        ensures ValidCandidate(specs[1..][i]) && Answers(st, specs[1..][i], items[1..][i])
      {
        assert specs[1..][i] == specs[i + 1] && items[1..][i] == items[i + 1];
      }
      SettledFrom(st, specs[1..], items[1..], seen + {specs[0].kind});
      assert items == [items[0]] + items[1..];
    }
  }

  /** A restart with unchanged specifications stores nothing and hands out the same defaults, whatever
      candidates it brings and whatever happened in between, if no other candidate was reconciled. */
  lemma RestartStoresNothing(s: State, specs: seq<SystemSpec>, ops: seq<Op>, again: seq<SystemSpec>)
    requires Inv(s) && Reconcile(s.store, specs).2 == Ok
    requires forall i :: 0 <= i < |ops| ==> !ops[i].CandidateOp?
    requires |again| == |specs| && forall i :: 0 <= i < |specs| ==> SameSpec(specs[i], again[i])
    ensures var (t, items, _) := Reconcile(s.store, specs); var u := Run(State(t, s.pending), ops).store;
      Reconcile(u, again) == (u, items, Ok)
  {
    hide EndpointsOk, BindingsOk, UniqueSystemNumbers, Run, Step, IsRun, Settled, SystemName, CanReconcile,
      DistinctKinds, VersionsGrow;
    var (t, items, _) := Reconcile(s.store, specs);
    var x := State(t, s.pending);
    FromAnswers(s.store, specs, {});
    ReconcileSucceedsIff(s.store, specs);
    FromFrame(s.store, specs, {}, DataStore);
    UniqueRun(x, ops);
    forall i | 0 <= i < |specs|
      ensures ValidCandidate(again[i]) && Answers(Run(x, ops).store, again[i], items[i])
    {
      assert CanReconcile(s.store, specs[i]);
      AnswersAgain(x, ops, specs[i], again[i], items[i]);
      ValidAgain(s.store, specs[i], again[i]);
    }
    SameKinds(specs, again);
    SettledFrom(Run(x, ops).store, again, items, {});
  }

  lemma AnswersAgain(s: State, ops: seq<Op>, c: SystemSpec, d: SystemSpec, item: DefaultBinding)
    requires Answers(s.store, c, item) && SameSpec(c, d) && forall i :: 0 <= i < |ops| ==> !ops[i].CandidateOp?
    ensures Answers(Run(s, ops).store, d, item)
  {
    hide Run, IsLatest, SystemName;
    SettledRun(s, ops, c, SystemKey(c.kind, item.versionId));
  }

  lemma ValidAgain(st: Store, c: SystemSpec, d: SystemSpec)
    requires CanReconcile(st, c) && SameSpec(c, d)
    ensures ValidCandidate(d)
  {
  }

  lemma SameKinds(specs: seq<SystemSpec>, again: seq<SystemSpec>)
    requires DistinctKinds(specs, {}) && |again| == |specs|
    requires forall i :: 0 <= i < |specs| ==> SameSpec(specs[i], again[i])
    ensures DistinctKinds(again, {})
  {
    hide ValidDefaultMode;
    assert forall i :: 0 <= i < |specs| ==> SameSpec(specs[i], again[i]);
  }

  lemma {:induction false} UniqueRun(s: State, ops: seq<Op>)
    requires UniqueSystemNumbers(s.store)
    ensures UniqueSystemNumbers(Run(s, ops).store)
    decreases |ops|
  {
    hide Step, UniqueSystemNumbers;
    if |ops| > 0 {
      UniqueStep(s, ops[0]);
      UniqueRun(Step(s, ops[0]), ops[1..]);
    }
  }
}
