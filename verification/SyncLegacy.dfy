/** Three runs of note sync: a synchroniser that moves a claim, a deleted note, and an older route of
    service/obsidian_sync.go that binds a note its user has unbound. */
module SyncLegacy {
  import opened Wrappers
  import opened Trimming
  import opened SyncBindings
  import opened SyncRuns

  // ---------------------------------------------------------------- one run

  const TARGET: id := [84]
  const NOTE: id := [78]
  const FILE: id := [70]
  const OTHER_FILE: id := [71]

  const VAULT: Target := Target(Obsidian, [86], [86], [66], Object(Absent, None, None), true, false)

  function BindRequest(): PutRequest { PutRequest(NOTE, TARGET, [], false) }

  function ClaimOn(): Claim { Claim(NOTE, TARGET, [], [], []) }

  /** A target is made, a note is bound to it, and the synchroniser claims a file for the note. */
  function ClaimedRun(): seq<Op> {
    [CreateTargetOp(TARGET, VAULT), PutOp(BindRequest(), 0), ReserveOp(FILE, ClaimOn())]
  }

  function Bound(): Store {
    Store(map[TARGET := VAULT], map[NOTE := Binding(TARGET, 0, 0)], map[], map[], map[], {})
  }

  function Claimed(): Store {
    Bound().(claims := map[FILE := ClaimOn()])
  }

  lemma Identifiers()
    ensures TrimSpace(NOTE) == NOTE && TrimSpace(TARGET) == TARGET && TrimSpace([]) == []
    ensures TrimSpace([86]) == [86] && TrimSpace([66]) == [66]
  {
  }

  lemma TargetMade(p: Paths)
    ensures Step(EMPTY, p, CreateTargetOp(TARGET, VAULT)) == EMPTY.(targets := map[TARGET := VAULT])
  {
    Identifiers();
  }

  lemma NoteBound(p: Paths)
    ensures Step(EMPTY.(targets := map[TARGET := VAULT]), p, PutOp(BindRequest(), 0)) == Bound()
  {
    hide TrimSpace;
    Identifiers();
    var s := EMPTY.(targets := map[TARGET := VAULT]);
    var t := PutBindingTx(s, BindRequest(), 0).0;
    assert t.tombstones == map[] && t.suppressions == map[];
  }

  lemma FileClaimed(p: Paths)
    ensures Step(Bound(), p, ReserveOp(FILE, ClaimOn())) == Claimed()
  {
    assert ReleaseClaim(Bound(), NOTE).claims == map[];
  }

  lemma ClaimedIsReached(p: Paths)
    ensures IsRun(EMPTY, p, ClaimedRun()) && Run(EMPTY, p, ClaimedRun()) == Claimed()
  {
    hide Step;
    TargetMade(p);
    NoteBound(p);
    FileClaimed(p);
    var ops := ClaimedRun();
    assert ops[1..] == [ops[1], ops[2]] && ops[1..][1..] == [ops[2]] && ops[1..][1..][1..] == [];
  }

  /** Runs of requests and reservations bind nothing blindly. */
  lemma {:induction false} RequestsAreCareful(s: Store, p: Paths, ops: seq<Op>)
    requires forall i :: 0 <= i < |ops| ==>
               !ops[i].BareBindOp? && !ops[i].LegacyOp? && !ops[i].DeleteNoteOp? && !ops[i].ConfirmOp?
    ensures Careful(s, p, ops)
    decreases |ops|
  {
    hide Step;
    if |ops| > 0 {
      RequestsAreCareful(Step(s, p, ops[0]), p, ops[1..]);
    }
  }

  lemma ClaimedInv(p: Paths)
    ensures IsRun(EMPTY, p, ClaimedRun()) && Run(EMPTY, p, ClaimedRun()) == Claimed() && Inv(Claimed())
  {
    hide Inv, IsRun, Run;
    ClaimedIsReached(p);
    RequestsAreCareful(EMPTY, p, ClaimedRun());
    ReachableStores(p, ClaimedRun());
  }

  // ---------------------------------------------------------------- a claim that moves

  /** At a reachable store the synchroniser moves the note to another file, and nothing remembers the first. */
  lemma MoveLeavesNoTombstone(p: Paths)
    ensures var s := Run(EMPTY, p, ClaimedRun()); var op := ReserveOp(OTHER_FILE, ClaimOn());
      && IsRun(EMPTY, p, ClaimedRun()) && FILE in s.claims && MoveAllowed(s, op, FILE)
      && FILE !in Step(s, p, op).claims && Step(s, p, op).tombstones == map[]
  {
    hide Inv, Run, IsRun;
    ClaimedInv(p);
    NotBuriedBefore(Claimed(), FILE);
    InvIsCore(Claimed());
    LostClaimLeavesTombstone(Claimed(), p, ReserveOp(OTHER_FILE, ClaimOn()), FILE);
  }

  // ---------------------------------------------------------------- a deleted note

  /** At a reachable store a note is deleted: its claim and its binding stay, next to its tombstone. */
  lemma DeletedNoteStaysBound(p: Paths)
    ensures var s := Run(EMPTY, p, ClaimedRun()); var t := Step(s, p, DeleteNoteOp(NOTE));
      && IsRun(EMPTY, p, ClaimedRun()) && Inv(s) && !Inv(t)
      && FILE in t.claims && NOTE in t.bindings && FILE in t.tombstones
      && t.tombstones[FILE] == TombstoneFor(ClaimOn(), NoteDeleted)
  {
    hide Inv, Run, IsRun;
    ClaimedInv(p);
    assert IsClaimOf(Claimed(), NOTE, FILE);
    DeleteNoteInv(Claimed(), NOTE);
  }

  // ---------------------------------------------------------------- the older routes

  /** Every unbinding prepares such a store: whoever unbinds a note from a target can see it bound
      there again by an older route, with the suppression still in place. */
  lemma LegacyRebindsSuppressed(s: Store, d: DeleteRequest, key: id, c: Claim, now: int)
    requires Inv(s) && DeleteBindingTx(s, d).1 == Ok
    requires c.note == TrimSpace(d.note) && c.target == d.expectedTarget
    requires key !in DeleteBindingTx(s, d).0.claims
    ensures var (t, err) := ReserveLegacy(DeleteBindingTx(s, d).0, key, c, now);
      && err == Ok && c.note in t.bindings && t.bindings[c.note].target == d.expectedTarget
      && (c.note, c.target) in t.suppressions && !Inv(t)
  {
    hide Inv, DeleteBindingTx;
    InvIsCore(s);
    DeleteOutcome(s, d);
    UnboundKeeps(s, d);
    LegacyInv(DeleteBindingTx(s, d).0, key, c, now);
  }

  lemma UnboundKeeps(s: Store, d: DeleteRequest)
    requires Inv(s) && DeleteBindingTx(s, d).1 == Ok
    ensures var u := DeleteBindingTx(s, d).0; Inv(u) && u.targets == s.targets && d.expectedTarget in s.targets
  {
    hide Inv, TombstoneAndRelease;
    StatesRefer(s);
    UnbindInv(s, TrimSpace(d.note));
    Released(s, TrimSpace(d.note), UserUnbound);
    BoundTarget(s, TrimSpace(d.note));
  }

  /** At a reachable store. */
  lemma LegacyBreaksReachable(p: Paths, now: int)
    ensures var ops := ClaimedRun() + [DeleteOp(DeleteRequest(NOTE, TARGET, 0))];
      && Inv(Run(EMPTY, p, ops))
      && !Inv(ReserveLegacy(Run(EMPTY, p, ops), FILE, ClaimOn(), now).0)
  {
    hide Inv, Step, ReserveLegacy;
    var d := DeleteRequest(NOTE, TARGET, 0);
    var ops := ClaimedRun() + [DeleteOp(d)];
    RequestsAreCareful(EMPTY, p, ClaimedRun());
    ReachableStores(p, ClaimedRun());
    RequestsAreCareful(EMPTY, p, ops);
    ReachableStores(p, ops);
    ClaimedIsReached(p);
    RunOneMore(EMPTY, p, ClaimedRun(), DeleteOp(d));
    UnboundAtClaimed(p, d);
    LegacyRebindsSuppressed(Claimed(), d, FILE, ClaimOn(), now);
  }

  lemma UnboundAtClaimed(p: Paths, d: DeleteRequest)
    requires d == DeleteRequest(NOTE, TARGET, 0) && Inv(Claimed())
    ensures DeleteBindingTx(Claimed(), d).1 == Ok && Step(Claimed(), p, DeleteOp(d)) == DeleteBindingTx(Claimed(), d).0
    ensures TrimSpace(d.note) == NOTE && FILE !in DeleteBindingTx(Claimed(), d).0.claims
  {
    hide TombstoneAndRelease, Inv;
    Identifiers();
    StatesRefer(Claimed());
    Released(Claimed(), NOTE, UserUnbound);
  }

  lemma {:induction false} RunOneMore(s: Store, p: Paths, ops: seq<Op>, op: Op)
    ensures Run(s, p, ops + [op]) == Step(Run(s, p, ops), p, op)
    decreases |ops|
  {
    hide Step;
    if |ops| == 0 {
      assert ops + [op] == [op] && [op][1..] == [];
    } else {
      assert (ops + [op])[1..] == ops[1..] + [op];
      RunOneMore(Step(s, p, ops[0]), p, ops[1..], op);
    }
  }
}
