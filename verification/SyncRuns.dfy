/** Every run of the note-sync transactions: claims stay on their targets, released claims leave
    tombstones, and a target in use keeps its identity. */
module SyncRuns {
  import opened Wrappers
  import opened Trimming
  import opened SyncBindings

  datatype Op =
    | PutOp(put: PutRequest, now: int)
    | DeleteOp(request: DeleteRequest)
    | BareBindOp(note: id, target: id, now: int, checked: bool)
    | ReserveOp(key: id, claim: Claim)
    | LegacyOp(key: id, claim: Claim, now: int)
    | DeleteNoteOp(note: id)
    | ConfirmOp(key: id, claim: Claim)
    | StateOp(note: id, target: id)
    | ForgetOp(note: id, target: id)
    | CreateTargetOp(targetId: id, row: Target)
    | UpdateTargetOp(targetId: id, row: Target, keepDefault: bool)
    | DeleteTargetOp(targetId: id)

  /** A created target gets an identifier that was never used. */
  predicate Enabled(s: Store, op: Op) {
    op.CreateTargetOp? ==> op.targetId !in s.targets
  }

  ghost function Step(s: Store, p: Paths, op: Op): Store {
    match op
    case PutOp(r, now) => PutBindingTx(s, r, now).0
    case DeleteOp(r) => DeleteBindingTx(s, r).0
    case BareBindOp(note, target, now, checked) => BindBare(s, note, target, now, checked).0
    case ReserveOp(key, c) => ReserveClaim(s, key, c).0
    case LegacyOp(key, c, now) => ReserveLegacy(s, key, c, now).0
    case DeleteNoteOp(note) => DeleteNoteTx(s, note)
    case ConfirmOp(key, c) => ConfirmDeletion(s, key, c).0
    case StateOp(note, target) => RecordState(s, note, target).0
    case ForgetOp(note, target) => ForgetState(s, note, target)
    case CreateTargetOp(targetId, row) => CreateTarget(s, targetId, row).0
    case UpdateTargetOp(targetId, row, keepDefault) => UpdateTarget(s, p, targetId, row, keepDefault).0
    case DeleteTargetOp(targetId) => DeleteTarget(s, targetId).0
  }

  ghost predicate IsRun(s: Store, p: Paths, ops: seq<Op>)
    decreases |ops|
  {
    |ops| == 0 || (Enabled(s, ops[0]) && IsRun(Step(s, p, ops[0]), p, ops[1..]))
  }

  ghost function Run(s: Store, p: Paths, ops: seq<Op>): Store
    decreases |ops|
  {
    if |ops| == 0 then s else Run(Step(s, p, ops[0]), p, ops[1..])
  }

  // ---------------------------------------------------------------- the invariant

  /** A claim is on the target its note is bound to. */
  predicate ClaimOk(s: Store, key: id)
    requires key in s.claims
  {
    s.claims[key].note in s.bindings && s.bindings[s.claims[key].note].target == s.claims[key].target
  }

  /** Nothing keeps the note and the target apart. */
  predicate NothingBetween(s: Store, note: id, target: id) {
    && (note, target) !in s.suppressions
    && forall k :: k in s.tombstones ==> !(s.tombstones[k].formerNote == note && s.tombstones[k].target == target)
  }

  /** A bound note's target is there, and nothing keeps the two apart. */
  predicate BindingOk(s: Store, note: id)
    requires note in s.bindings
  {
    s.bindings[note].target in s.targets && NothingBetween(s, note, s.bindings[note].target)
  }

  predicate Inv(s: Store) {
    && (forall k :: k in s.claims ==> ClaimOk(s, k))
    && OneClaimEach(s)
    && (forall n :: n in s.bindings ==> BindingOk(s, n))
    && (forall x :: x in s.states ==> x.1 in s.targets)
    && (forall x :: x in s.suppressions ==> x.1 in s.targets)
    && (forall k :: k in s.tombstones ==> s.tombstones[k].target in s.targets)
  }

  /** What releasing the claim of a bound note does. */
  lemma Released(s: Store, note: id, reason: Reason)
    requires OneClaimEach(s)
    ensures var t := TombstoneAndRelease(s, note, reason);
      && t == s.(claims := t.claims, tombstones := t.tombstones)
      && (forall k :: k in t.claims <==> k in s.claims && s.claims[k].note != note)
      && (forall k :: k in t.claims ==> t.claims[k] == s.claims[k])
      && (forall k :: k in s.claims && s.claims[k].note == note ==>
            k in t.tombstones && t.tombstones[k] == TombstoneFor(s.claims[k], reason))
      && (forall k :: k in t.tombstones ==>
            (k in s.tombstones && t.tombstones[k] == s.tombstones[k])
            || (IsClaimOf(s, note, k) && t.tombstones[k] == TombstoneFor(s.claims[k], reason)))
      && (forall k :: k in s.tombstones && k !in t.tombstones ==>
            && s.tombstones[k].formerNote == note
            && exists c :: IsClaimOf(s, note, c) && s.claims[c].target == s.tombstones[k].target)
  {
    if HasClaim(s, note) {
      var key := ClaimKey(s, note);
      assert IsClaimOf(s, note, key);
    } else {
      forall k | k in s.claims
        ensures s.claims[k].note != note
      {
        assert s.claims[k].note == note ==> IsClaimOf(s, note, k);
      }
    }
  }

  // ---------------------------------------------------------------- every step keeps it

  /** The claim of a bound note is gone, and a tombstone for its target took its place. */
  predicate ReleasedOk(s: Store, note: id) {
    && (forall k :: k in s.claims ==> ClaimOk(s, k) && s.claims[k].note != note)
    && OneClaimEach(s)
    && (forall n :: n in s.bindings && n != note ==> BindingOk(s, n))
    && (note in s.bindings ==> s.bindings[note].target in s.targets)
    && (forall x :: x in s.states ==> x.1 in s.targets)
    && (forall x :: x in s.suppressions ==> x.1 in s.targets)
    && (forall k :: k in s.tombstones ==> s.tombstones[k].target in s.targets)
  }

  lemma ReleaseKeeps(s: Store, note: id, reason: Reason)
    requires Inv(s) && note in s.bindings
    ensures ReleasedOk(TombstoneAndRelease(s, note, reason), note)
  {
    hide TombstoneAndRelease;
    Released(s, note, reason);
    var t := TombstoneAndRelease(s, note, reason);
    forall k | k in t.claims
      ensures ClaimOk(t, k)
    {
      assert ClaimOk(s, k);
    }
    forall k | k in t.tombstones
      ensures t.tombstones[k].target in t.targets
    {
      if IsClaimOf(s, note, k) && t.tombstones[k] == TombstoneFor(s.claims[k], reason) {
        assert ClaimOk(s, k) && BindingOk(s, note);
      }
    }
    forall n | n in t.bindings && n != note
      ensures BindingOk(t, n)
    {
      assert BindingOk(s, n);
      forall k | k in t.tombstones
        ensures !(t.tombstones[k].formerNote == n && t.tombstones[k].target == t.bindings[n].target)
      {
        if !(k in s.tombstones && t.tombstones[k] == s.tombstones[k]) {
          assert t.tombstones[k].formerNote == note;
        }
      }
    }
    assert BindingOk(s, note);
  }

  lemma InvIsReleased(s: Store, note: id)
    requires Inv(s) && note !in s.bindings
    ensures ReleasedOk(s, note)
  {
    forall k | k in s.claims
      ensures s.claims[k].note != note
    {
      assert ClaimOk(s, k);
    }
  }

  /** Storing a binding after its obstacles are gone. */
  lemma StoredBinding(s: Store, note: id, target: id, b: Binding)
    requires ReleasedOk(s, note) || (Inv(s) && note in s.bindings && s.bindings[note].target == target)
    requires target in s.targets && b.target == target
    ensures var t := DropTombstones(s.(suppressions := s.suppressions - {(note, target)}), note, target);
      Inv(t.(bindings := t.bindings[note := b]))
  {
    var t := DropTombstones(s.(suppressions := s.suppressions - {(note, target)}), note, target);
    var u := t.(bindings := t.bindings[note := b]);
    forall k | k in u.claims
      ensures ClaimOk(u, k)
    {
      assert ClaimOk(s, k);
    }
    forall n | n in u.bindings
      ensures BindingOk(u, n)
    {
      if n != note {
        assert BindingOk(s, n);
      }
    }
  }

  lemma BindInv(s: Store, note: id, target: id, now: int)
    requires Inv(s) && target in s.targets
    ensures Inv(Bind(s, note, target, now))
  {
    hide Inv, ReleasedOk, TombstoneAndRelease, DropTombstones;
    StatesRefer(s);
    var b := Binding(target, if note in s.bindings then s.bindings[note].createdAt else now, now);
    if note in s.bindings && s.bindings[note].target != target {
      ReleaseKeeps(s, note, TargetChanged);
      Released(s, note, TargetChanged);
      StoredBinding(TombstoneAndRelease(s, note, TargetChanged), note, target, b);
      DropKeepsBindings(TombstoneAndRelease(s, note, TargetChanged), note, target);
    } else {
      if note !in s.bindings {
        InvIsReleased(s, note);
      }
      StoredBinding(s, note, target, b);
      DropKeepsBindings(s, note, target);
    }
  }

  lemma DropKeepsBindings(s: Store, note: id, target: id)
    ensures var t := DropTombstones(s.(suppressions := s.suppressions - {(note, target)}), note, target);
      t == s.(suppressions := s.suppressions - {(note, target)}, tombstones := t.tombstones)
  {
  }

  lemma UnbindInv(s: Store, note: id)
    requires Inv(s) && note in s.bindings
    ensures Inv(Unbind(s, note))
  {
    hide TombstoneAndRelease, Inv, ReleasedOk;
    StatesRefer(s);
    ReleaseKeeps(s, note, UserUnbound);
    Released(s, note, UserUnbound);
    BoundTarget(s, note);
    Unbound(TombstoneAndRelease(s, note, UserUnbound), note, s.bindings[note].target);
  }

  lemma BoundTarget(s: Store, note: id)
    requires Inv(s) && note in s.bindings
    ensures s.bindings[note].target in s.targets
  {
    assert BindingOk(s, note);
  }

  /** Taking a binding away after its claim is gone. */
  lemma Unbound(s: Store, note: id, target: id)
    requires ReleasedOk(s, note) && target in s.targets
    ensures Inv(s.(suppressions := s.suppressions[(note, target) := UserUnbound], bindings := s.bindings - {note}))
  {
    var u := s.(suppressions := s.suppressions[(note, target) := UserUnbound], bindings := s.bindings - {note});
    forall k | k in u.claims
      ensures ClaimOk(u, k)
    {
      assert ClaimOk(s, k);
    }
    forall n | n in u.bindings
      ensures BindingOk(u, n)
    {
      assert BindingOk(s, n);
    }
  }

  lemma ReserveInv(s: Store, key: id, c: Claim)
    requires Inv(s)
    ensures Inv(ReserveClaim(s, key, c).0)
  {
    var t := ReserveClaim(s, key, c).0;
    forall k | k in t.claims
      ensures ClaimOk(t, k)
    {
      if k != key {
        assert t == s || ClaimOk(s, k);
      }
    }
    forall n | n in t.bindings
      ensures BindingOk(t, n)
    {
      assert BindingOk(s, n);
    }
  }

  /** A step that only changes targets keeps every identifier of a target. */
  lemma TargetsInv(s: Store, t: Store)
    requires Inv(s) && t == s.(targets := t.targets) && s.targets.Keys <= t.targets.Keys
    ensures Inv(t)
  {
    forall k | k in t.claims
      ensures ClaimOk(t, k)
    {
      assert ClaimOk(s, k);
    }
    forall n | n in t.bindings
      ensures BindingOk(t, n)
    {
      assert BindingOk(s, n);
    }
  }

  lemma SaveKeepsTargets(s: Store, targetId: id, row: Target)
    ensures var t := SaveTarget(s, targetId, row).0; t == s.(targets := t.targets) && s.targets.Keys <= t.targets.Keys
  {
  }

  lemma DeleteTargetInv(s: Store, targetId: id)
    requires Inv(s)
    ensures Inv(DeleteTarget(s, targetId).0)
  {
    var t := DeleteTarget(s, targetId).0;
    if t != s {
      forall k | k in t.claims
        ensures ClaimOk(t, k)
      {
        assert ClaimOk(s, k);
      }
      forall n | n in t.bindings
        ensures BindingOk(t, n)
      {
        assert BindingOk(s, n);
        assert s.bindings[n].target != targetId;
      }
    }
  }

  lemma StateInv(s: Store, states: set<(id, id)>)
    requires Inv(s) && forall x :: x in states ==> x.1 in s.targets
    ensures Inv(s.(states := states))
  {
    var t := s.(states := states);
    forall k | k in t.claims
      ensures ClaimOk(t, k)
    {
      assert ClaimOk(s, k);
    }
    forall n | n in t.bindings
      ensures BindingOk(t, n)
    {
      assert BindingOk(s, n);
    }
  }

  lemma StatesRefer(s: Store)
    requires Inv(s)
    ensures OneClaimEach(s) && (forall x :: x in s.states ==> x.1 in s.targets)
    ensures forall k :: k in s.claims ==>
      s.claims[k].note in s.bindings && s.bindings[s.claims[k].note].target == s.claims[k].target
  {
  }

  // ---------------------------------------------------------------- bindings made without a request

  /** A synchroniser binds an unbound note to a target although something was left between them. */
  predicate Blind(s: Store, op: Op) {
    match op
    case BareBindOp(note, target, _, checked) =>
      && note !in s.bindings && target in s.targets && !(checked && (note, target) in s.suppressions)
      && !NothingBetween(s, note, target)
    case LegacyOp(key, c, _) =>
      && c.note !in s.bindings && c.target in s.targets && key !in s.claims
      && !NothingBetween(s, c.note, c.target)
    case _ => false
  }

  /** The binding row is stored as it is. */
  lemma BindingInv(s: Store, note: id, target: id, b: Binding)
    requires Inv(s) && note !in s.bindings && target in s.targets && b.target == target
    ensures Inv(s.(bindings := s.bindings[note := b])) <==> NothingBetween(s, note, target)
  {
    var t := s.(bindings := s.bindings[note := b]);
    if NothingBetween(s, note, target) {
      forall k | k in t.claims
        ensures ClaimOk(t, k)
      {
        assert ClaimOk(s, k);
      }
      forall n | n in t.bindings
        ensures BindingOk(t, n)
      {
        assert n != note ==> BindingOk(s, n);
      }
    } else {
      assert !BindingOk(t, note);
    }
  }

  lemma BareBindInv(s: Store, note: id, target: id, now: int, checked: bool)
    requires Inv(s)
    ensures Inv(BindBare(s, note, target, now, checked).0) <==> !Blind(s, BareBindOp(note, target, now, checked))
  {
    hide Inv, NothingBetween;
    if note !in s.bindings && target in s.targets {
      BindingInv(s, note, target, Binding(target, now, now));
    }
  }

  /** A reservation changes claims alone, so what is between its note and the target stays. */
  lemma ReserveShowsBetween(s: Store, key: id, c: Claim)
    requires c.note in s.bindings && !NothingBetween(s, c.note, s.bindings[c.note].target)
    ensures !Inv(ReserveClaim(s, key, c).0)
  {
    assert !BindingOk(ReserveClaim(s, key, c).0, c.note);
  }

  lemma SameBetween(s: Store, t: Store, note: id, target: id)
    requires t.suppressions == s.suppressions && t.tombstones == s.tombstones
    ensures NothingBetween(t, note, target) == NothingBetween(s, note, target)
  {
  }

  lemma LegacyInv(s: Store, key: id, c: Claim, now: int)
    requires Inv(s)
    ensures Inv(ReserveLegacy(s, key, c, now).0) <==> !Blind(s, LegacyOp(key, c, now))
  {
    hide Inv, NothingBetween;
    StatesRefer(s);
    if c.note in s.bindings {
      ReserveInv(s, key, c);
    } else if c.target in s.targets {
      var b := Binding(c.target, now, now);
      var bound := s.(bindings := s.bindings[c.note := b]);
      BindingInv(s, c.note, c.target, b);
      if NothingBetween(s, c.note, c.target) {
        ReserveInv(bound, key, c);
      } else {
        SameBetween(s, bound, c.note, c.target);
        ReserveShowsBetween(bound, key, c);
      }
    }
  }

  // ---------------------------------------------------------------- tombstones of deleted notes

  /** The tombstone of a deleted note comes between it and the target it stays bound to. */
  predicate Parts(s: Store, op: Op) {
    match op
    case DeleteNoteOp(note) => HasClaim(s, note)
    case ConfirmOp(_, c) =>
      || HasClaim(s, c.note)
      || (c.target in s.targets && c.note in s.bindings && s.bindings[c.note].target == c.target)
    case _ => false
  }

  lemma TombstoneInv(s: Store, key: id, b: Tombstone)
    requires Inv(s) && b.target in s.targets
    ensures Inv(PutTombstone(s, key, b))
      <==> !(b.formerNote in s.bindings && s.bindings[b.formerNote].target == b.target)
  {
    var t := PutTombstone(s, key, b);
    forall k | k in t.claims
      ensures ClaimOk(t, k)
    {
      assert ClaimOk(s, k);
    }
    if b.formerNote in s.bindings && s.bindings[b.formerNote].target == b.target {
      assert t.tombstones[key] == b;
      assert !BindingOk(t, b.formerNote);
    } else {
      forall n | n in t.bindings
        ensures BindingOk(t, n)
      {
        assert BindingOk(s, n);
      }
    }
  }

  lemma ClaimedIsBound(s: Store, key: id)
    requires Inv(s) && key in s.claims
    ensures s.claims[key].note in s.bindings && s.bindings[s.claims[key].note].target == s.claims[key].target
  {
    assert ClaimOk(s, key);
  }

  lemma DeleteNoteInv(s: Store, note: id)
    requires Inv(s)
    ensures Inv(DeleteNoteTx(s, note)) <==> !HasClaim(s, note)
  {
    hide Inv, PutTombstone;
    if HasClaim(s, note) {
      var key := ClaimKey(s, note);
      ClaimedIsBound(s, key);
      BoundTarget(s, note);
      TombstoneInv(s, key, TombstoneFor(s.claims[key], NoteDeleted));
    }
  }

  lemma ForgetInv(s: Store, note: id, target: id)
    requires forall x :: x in s.states ==> x.1 in s.targets
    ensures Inv(ForgetState(s, note, target)) <==> Inv(s)
  {
    var t := ForgetState(s, note, target);
    forall k | k in s.claims
      ensures ClaimOk(t, k) == ClaimOk(s, k)
    {
    }
    forall n | n in s.bindings
      ensures BindingOk(t, n) == BindingOk(s, n)
    {
    }
  }

  lemma ConfirmInv(s: Store, key: id, c: Claim)
    requires Inv(s)
    ensures Inv(ConfirmDeletion(s, key, c).0) <==> !Parts(s, ConfirmOp(key, c))
  {
    hide Inv, PutTombstone, DeleteNoteTx, ForgetState;
    StatesRefer(s);
    if HasClaim(s, c.note) {
      DeleteNoteInv(s, c.note);
      DeleteNoteFrame(s, c.note);
      ForgetInv(DeleteNoteTx(s, c.note), c.note, c.target);
    } else if c.target in s.targets {
      var b := TombstoneFor(c, NoteDeleted);
      TombstoneInv(s, key, b);
      BuryFrame(s, key, b);
      ForgetInv(PutTombstone(s, key, b), c.note, c.target);
    }
  }

  lemma BuryFrame(s: Store, key: id, b: Tombstone)
    ensures var t := PutTombstone(s, key, b); t == s.(tombstones := t.tombstones)
  {
  }

  lemma DeleteNoteFrame(s: Store, note: id)
    ensures var t := DeleteNoteTx(s, note); t == s.(tombstones := t.tombstones)
  {
  }

  lemma ConfirmFrame(s: Store, key: id, c: Claim)
    ensures var t := ConfirmDeletion(s, key, c).0; t == s.(tombstones := t.tombstones, states := t.states)
    ensures ConfirmDeletion(s, key, c).0.states <= s.states
  {
    hide PutTombstone, DeleteNoteTx;
    DeleteNoteFrame(s, c.note);
    BuryFrame(s, key, TombstoneFor(c, NoteDeleted));
  }

  // ---------------------------------------------------------------- every step

  /** The step leaves a bound note and its target apart. */
  predicate Breaks(s: Store, op: Op) {
    Blind(s, op) || Parts(s, op)
  }

  /** A step keeps the invariant exactly when it neither binds blindly nor remembers a deleted note that
      stays bound. */
  lemma StepInv(s: Store, p: Paths, op: Op)
    requires Inv(s)
    ensures Inv(Step(s, p, op)) <==> !Breaks(s, op)
  {
    hide Inv, Bind, Unbind, SaveTarget, CreateTarget, UpdateTarget, BindBare, ReserveClaim, ReserveLegacy, DeleteTarget,
      NothingBetween, DeleteNoteTx, ConfirmDeletion;
    StatesRefer(s);
    match op
    case PutOp(r, now) =>
      if TrimSpace(r.target) in s.targets {
        BindInv(s, TrimSpace(r.note), TrimSpace(r.target), now);
      }
    case DeleteOp(r) =>
      if TrimSpace(r.note) in s.bindings {
        UnbindInv(s, TrimSpace(r.note));
      }
    case BareBindOp(note, target, now, checked) => BareBindInv(s, note, target, now, checked);
    case ReserveOp(key, c) => ReserveInv(s, key, c);
    case LegacyOp(key, c, now) => LegacyInv(s, key, c, now);
    case DeleteNoteOp(note) => DeleteNoteInv(s, note);
    case ConfirmOp(key, c) => ConfirmInv(s, key, c);
    case StateOp(note, target) => StateInv(s, Step(s, p, op).states);
    case ForgetOp(note, target) => StateInv(s, Step(s, p, op).states);
    case CreateTargetOp(targetId, row) =>
      CreateFrame(s, targetId, row);
      TargetsInv(s, Step(s, p, op));
    case UpdateTargetOp(targetId, row, keepDefault) => UpdateInv(s, p, targetId, row, keepDefault);
    case DeleteTargetOp(targetId) => DeleteTargetInv(s, targetId);
  }

  lemma UpdateInv(s: Store, p: Paths, targetId: id, row: Target, keepDefault: bool)
    requires Inv(s)
    ensures Inv(UpdateTarget(s, p, targetId, row, keepDefault).0)
  {
    hide Inv, UpdateTarget;
    UpdateFrame(s, p, targetId, row, keepDefault);
    TargetsInv(s, UpdateTarget(s, p, targetId, row, keepDefault).0);
  }

  /** Saving and updating a target change nothing but targets, and remove none. */
  lemma CreateFrame(s: Store, targetId: id, row: Target)
    ensures var t := CreateTarget(s, targetId, row).0; t == s.(targets := t.targets) && s.targets.Keys <= t.targets.Keys
  {
  }

  /** The update gets as far as a row to save. */
  predicate CanMerge(s: Store, targetId: id, row: Target) {
    && NormalizeSecrets(row).Some? && targetId in s.targets
    && MergeSecrets(s.targets[targetId], NormalizeSecrets(row).value).Some?
  }

  lemma UpdateFrame(s: Store, p: Paths, targetId: id, row: Target, keepDefault: bool)
    ensures var t := UpdateTarget(s, p, targetId, row, keepDefault).0;
      t == s.(targets := t.targets) && s.targets.Keys <= t.targets.Keys
  {
    hide IdentityChanged, MergeSecrets, TargetInUse, NormalizeSecrets, SaveTarget;
    if CanMerge(s, targetId, row) {
      SaveKeepsTargets(s, targetId, Merged(s, targetId, NormalizeSecrets(row).value, keepDefault));
    }
  }

  /** Reserving changes claims, and binding without a request bindings. */
  lemma ReserveFrame(s: Store, key: id, c: Claim)
    ensures var t := ReserveClaim(s, key, c).0; t == s.(claims := t.claims)
  {
  }

  lemma BareFrame(s: Store, note: id, target: id, now: int, checked: bool)
    ensures var t := BindBare(s, note, target, now, checked).0; t == s.(bindings := t.bindings)
  {
  }

  lemma LegacyFrame(s: Store, key: id, c: Claim, now: int)
    ensures var t := ReserveLegacy(s, key, c, now).0; t == s.(bindings := t.bindings, claims := t.claims)
  {
    hide BindBare, ReserveClaim;
    BareFrame(s, c.note, c.target, now, false);
    ReserveFrame(BindBare(s, c.note, c.target, now, false).0, key, c);
  }

  /** The row an update saves. */
  function Merged(s: Store, targetId: id, next: Target, keepDefault: bool): Target
    requires targetId in s.targets && MergeSecrets(s.targets[targetId], next).Some?
  {
    var merged := MergeSecrets(s.targets[targetId], next).value;
    if keepDefault then merged.(isDefault := s.targets[targetId].isDefault) else merged
  }

  /** No step of the run leaves a bound note and its target apart. */
  ghost predicate Careful(s: Store, p: Paths, ops: seq<Op>)
    decreases |ops|
  {
    |ops| == 0 || (!Breaks(s, ops[0]) && Careful(Step(s, p, ops[0]), p, ops[1..]))
  }

  lemma {:induction false} RunInv(s: Store, p: Paths, ops: seq<Op>)
    requires Inv(s) && Careful(s, p, ops)
    ensures Inv(Run(s, p, ops))
    decreases |ops|
  {
    hide Inv, Step, Breaks;
    if |ops| > 0 {
      StepInv(s, p, ops[0]);
      RunInv(Step(s, p, ops[0]), p, ops[1..]);
    }
  }

  /** In every store that a run without such steps reaches, a claim is on its note's bound target, a bound
      note has neither a suppression nor a tombstone for its target, and nothing refers to a target that
      is gone. */
  lemma ReachableStores(p: Paths, ops: seq<Op>)
    requires Careful(EMPTY, p, ops)
    ensures Inv(Run(EMPTY, p, ops))
  {
    RunInv(EMPTY, p, ops);
  }

  // ---------------------------------------------------------------- what holds in every run

  /** The part of the invariant that every step keeps. */
  predicate Core(s: Store) {
    && (forall k :: k in s.claims ==> ClaimOk(s, k))
    && OneClaimEach(s)
    && (forall n :: n in s.bindings ==> s.bindings[n].target in s.targets)
    && (forall x :: x in s.states ==> x.1 in s.targets)
    && (forall x :: x in s.suppressions ==> x.1 in s.targets)
    && (forall k :: k in s.tombstones ==> s.tombstones[k].target in s.targets)
  }

  lemma InvIsCore(s: Store)
    ensures Inv(s) <==> Core(s) && forall n :: n in s.bindings ==> NothingBetween(s, n, s.bindings[n].target)
  {
    hide NothingBetween, ClaimOk;
    if Inv(s) {
      forall n | n in s.bindings
        ensures s.bindings[n].target in s.targets && NothingBetween(s, n, s.bindings[n].target)
      {
        assert BindingOk(s, n);
      }
    }
  }

  /** What a successful binding leaves of claims, bindings and tombstones. */
  lemma BoundParts(s: Store, r: PutRequest, now: int, k: id)
    requires Core(s)
    ensures var t := PutBindingTx(s, r, now).0; var note, target := TrimSpace(r.note), TrimSpace(r.target);
      && t.targets == s.targets && t.states == s.states && t.suppressions.Keys <= s.suppressions.Keys
      && (k in t.tombstones ==> t.tombstones[k].target in s.targets)
      && (k in t.claims ==> k in s.claims && t.claims[k] == s.claims[k])
      && (t == s || (target in s.targets && t.bindings.Keys == s.bindings.Keys + {note}
                     && t.bindings == s.bindings[note := t.bindings[note]] && t.bindings[note].target == target))
      && (t != s && k in t.claims && t.claims[k].note == note ==>
            note in s.bindings && s.bindings[note].target == target)
  {
    hide Core, TombstoneAndRelease, DropTombstones, PutCheck, PutAllowed;
    CoreRefers(s);
    var note, target := TrimSpace(r.note), TrimSpace(r.target);
    PutAllowedIff(s, r, now);
    if PutBindingTx(s, r, now).1 == Ok {
      AllowedTarget(s, note, target, r);
    }
    Released(s, note, TargetChanged);
    var released := TombstoneAndRelease(s, note, TargetChanged);
    DropKeepsBindings(s, note, target);
    DropKeepsBindings(released, note, target);
    DropSpares(s, note, target, k);
    DropSpares(released, note, target, k);
    CoreTombstone(s, k);
    if k in released.tombstones {
      ReleasedTargets(s, note, TargetChanged, k);
    }
    if k in s.claims && s.claims[k].note == note {
      CoreClaim(s, k);
    }
  }

  lemma CoreTombstone(s: Store, k: id)
    requires Core(s)
    ensures k in s.tombstones ==> s.tombstones[k].target in s.targets
  {
  }

  lemma CoreClaim(s: Store, k: id)
    requires Core(s) && k in s.claims
    ensures s.claims[k].note in s.bindings && s.bindings[s.claims[k].note].target == s.claims[k].target
  {
    assert ClaimOk(s, k);
  }

  lemma PutCore(s: Store, r: PutRequest, now: int)
    requires Core(s)
    ensures Core(PutBindingTx(s, r, now).0)
  {
    hide PutBindingTx, TrimSpace;
    var t := PutBindingTx(s, r, now).0;
    forall k
      ensures k in t.claims ==> k in s.claims && t.claims[k] == s.claims[k] && ClaimOk(t, k)
      ensures k in t.tombstones ==> t.tombstones[k].target in t.targets
    {
      BoundParts(s, r, now, k);
      if k in t.claims {
        CoreClaim(s, k);
      }
    }
    BoundParts(s, r, now, []);
  }

  lemma AllowedTarget(s: Store, note: id, target: id, r: PutRequest)
    requires PutAllowed(s, note, target, r)
    ensures target in s.targets
  {
  }

  /** What is buried refers to targets that are there. */
  lemma ReleasedTargets(s: Store, note: id, reason: Reason, k: id)
    requires Core(s) && k in TombstoneAndRelease(s, note, reason).tombstones
    ensures TombstoneAndRelease(s, note, reason).tombstones[k].target in s.targets
  {
    hide TombstoneAndRelease;
    Released(s, note, reason);
    if IsClaimOf(s, note, k) {
      assert ClaimOk(s, k);
    }
  }

  lemma DeleteCore(s: Store, r: DeleteRequest)
    requires Core(s)
    ensures Core(DeleteBindingTx(s, r).0)
  {
    hide TombstoneAndRelease;
    var note := TrimSpace(r.note);
    var t := DeleteBindingTx(s, r).0;
    if t != s {
      Released(s, note, UserUnbound);
      forall k | k in t.tombstones
        ensures t.tombstones[k].target in s.targets
      {
        ReleasedTargets(s, note, UserUnbound, k);
      }
      forall k | k in t.claims
        ensures ClaimOk(t, k)
      {
        assert ClaimOk(s, k);
      }
    }
  }

  lemma BareBindCore(s: Store, note: id, target: id, now: int, checked: bool)
    requires Core(s)
    ensures Core(BindBare(s, note, target, now, checked).0)
  {
    var t := BindBare(s, note, target, now, checked).0;
    forall k | k in t.claims
      ensures ClaimOk(t, k)
    {
      assert ClaimOk(s, k);
    }
  }

  lemma ReserveCore(s: Store, key: id, c: Claim)
    requires Core(s)
    ensures Core(ReserveClaim(s, key, c).0)
  {
    var t := ReserveClaim(s, key, c).0;
    forall k | k in t.claims
      ensures ClaimOk(t, k)
    {
      if k != key {
        assert t == s || ClaimOk(s, k);
      }
    }
  }

  lemma TargetsCore(s: Store, t: Store)
    requires Core(s) && t == s.(targets := t.targets) && s.targets.Keys <= t.targets.Keys
    ensures Core(t)
  {
    forall k | k in t.claims
      ensures ClaimOk(t, k)
    {
      assert ClaimOk(s, k);
    }
  }

  lemma DeleteTargetCore(s: Store, targetId: id)
    requires Core(s)
    ensures Core(DeleteTarget(s, targetId).0)
  {
    var t := DeleteTarget(s, targetId).0;
    if t != s {
      forall k | k in t.claims
        ensures ClaimOk(t, k)
      {
        assert ClaimOk(s, k);
      }
      forall n | n in t.bindings
        ensures t.bindings[n].target in t.targets
      {
        assert s.bindings[n].target != targetId;
      }
    }
  }

  lemma StateCore(s: Store, states: set<(id, id)>)
    requires Core(s) && forall x :: x in states ==> x.1 in s.targets
    ensures Core(s.(states := states))
  {
    var t := s.(states := states);
    forall k | k in t.claims
      ensures ClaimOk(t, k)
    {
      assert ClaimOk(s, k);
    }
  }

  lemma TombstoneCore(s: Store, key: id, b: Tombstone)
    requires Core(s) && b.target in s.targets
    ensures Core(PutTombstone(s, key, b))
  {
    var t := PutTombstone(s, key, b);
    forall k | k in t.claims
      ensures ClaimOk(t, k)
    {
      assert ClaimOk(s, k);
    }
  }

  lemma DeleteNoteCore(s: Store, note: id)
    requires Core(s)
    ensures Core(DeleteNoteTx(s, note))
  {
    hide Core, PutTombstone;
    if HasClaim(s, note) {
      var key := ClaimKey(s, note);
      CoreTarget(s, key);
      TombstoneCore(s, key, TombstoneFor(s.claims[key], NoteDeleted));
    }
  }

  lemma CoreTarget(s: Store, key: id)
    requires Core(s) && key in s.claims
    ensures s.claims[key].target in s.targets
  {
    assert ClaimOk(s, key);
  }

  lemma ConfirmCore(s: Store, key: id, c: Claim)
    requires Core(s)
    ensures Core(ConfirmDeletion(s, key, c).0)
  {
    hide Core, PutTombstone, DeleteNoteTx;
    CoreRefers(s);
    if HasClaim(s, c.note) {
      DeleteNoteCore(s, c.note);
      DeleteNoteFrame(s, c.note);
      StateCore(DeleteNoteTx(s, c.note), s.states - {(c.note, c.target)});
    } else if c.target in s.targets {
      var b := TombstoneFor(c, NoteDeleted);
      TombstoneCore(s, key, b);
      BuryFrame(s, key, b);
      StateCore(PutTombstone(s, key, b), s.states - {(c.note, c.target)});
    }
  }

  lemma CoreRefers(s: Store)
    requires Core(s)
    ensures OneClaimEach(s) && (forall x :: x in s.states ==> x.1 in s.targets)
  {
  }

  /** Every step keeps it. */
  lemma CoreStep(s: Store, p: Paths, op: Op)
    requires Core(s)
    ensures Core(Step(s, p, op))
  {
    hide Core, PutBindingTx, DeleteBindingTx, BindBare, ReserveClaim, CreateTarget, UpdateTarget, DeleteTarget,
      DeleteNoteTx, ConfirmDeletion;
    CoreRefers(s);
    match op
    case PutOp(r, now) => PutCore(s, r, now);
    case DeleteOp(r) => DeleteCore(s, r);
    case BareBindOp(note, target, now, checked) => BareBindCore(s, note, target, now, checked);
    case ReserveOp(key, c) => ReserveCore(s, key, c);
    case LegacyOp(key, c, now) =>
      BareBindCore(s, c.note, c.target, now, false);
      ReserveCore(BindBare(s, c.note, c.target, now, false).0, key, c);
    case DeleteNoteOp(note) => DeleteNoteCore(s, note);
    case ConfirmOp(key, c) => ConfirmCore(s, key, c);
    case StateOp(note, target) => StateCore(s, Step(s, p, op).states);
    case ForgetOp(note, target) => StateCore(s, Step(s, p, op).states);
    case CreateTargetOp(targetId, row) =>
      CreateFrame(s, targetId, row);
      TargetsCore(s, Step(s, p, op));
    case UpdateTargetOp(targetId, row, keepDefault) =>
      UpdateFrame(s, p, targetId, row, keepDefault);
      TargetsCore(s, Step(s, p, op));
    case DeleteTargetOp(targetId) => DeleteTargetCore(s, targetId);
  }

  /** In every run a claim is on its note's bound target, no note has two, and nothing refers to a target
      that is gone. */
  lemma {:induction false} CoreHolds(s: Store, p: Paths, ops: seq<Op>)
    requires Core(s)
    ensures Core(Run(s, p, ops))
    decreases |ops|
  {
    hide Core, Step;
    if |ops| > 0 {
      CoreStep(s, p, ops[0]);
      CoreHolds(Step(s, p, ops[0]), p, ops[1..]);
    }
  }

  // ---------------------------------------------------------------- claims and tombstones

  /** A synchroniser gives the key up: it reserves a free key for the note of the claim, on the
      target the note is bound to. */
  predicate MoveAllowed(s: Store, op: Op, key: id)
    requires key in s.claims
  {
    && (op.ReserveOp? || op.LegacyOp?) && op.key != key && op.key !in s.claims
    && op.claim.note == s.claims[key].note && op.claim.target == s.claims[key].target
  }

  /** The claim at a key stays, or a tombstone for it takes its place. */
  predicate KeptOrBuried(s: Store, t: Store, key: id)
    requires key in s.claims
  {
    var c := s.claims[key];
    || (key in t.claims && t.claims[key].note == c.note && t.claims[key].target == c.target)
    || (key !in t.claims && key in t.tombstones
        && t.tombstones[key].formerNote == c.note && t.tombstones[key].target == c.target)
  }

  /** The tombstone that a claim leaves is there already. */
  predicate BuriedBefore(s: Store, key: id)
    requires key in s.claims
  {
    && key in s.tombstones && s.tombstones[key].formerNote == s.claims[key].note
    && s.tombstones[key].target == s.claims[key].target
  }

  /** In every run, a claim that disappears leaves a tombstone for its key, its note and its target, except
      exactly when a synchroniser gave the key up for another one and no tombstone was there before. */
  lemma LostClaimLeavesTombstone(s: Store, p: Paths, op: Op, key: id)
    requires Core(s) && key in s.claims
    ensures KeptOrBuried(s, Step(s, p, op), key) <==> !MoveAllowed(s, op, key) || BuriedBefore(s, key)
    ensures MoveAllowed(s, op, key) ==> key !in Step(s, p, op).claims && Step(s, p, op).tombstones == s.tombstones
  {
    hide Core, PutBindingTx, DeleteBindingTx, CreateTarget, UpdateTarget, DeleteTarget, TargetInUse, BindBare,
      ReserveClaim, ReserveLegacy, KeptOrBuried, BuriedBefore, DeleteNoteTx, ConfirmDeletion;
    match op
    case PutOp(r, now) => PutReleases(s, r, now, key);
    case DeleteOp(r) => DeleteReleases(s, r, key);
    case ReserveOp(k, c) => ReserveSpares(s, k, c, key);
    case LegacyOp(k, c, now) => LegacySpares(s, k, c, now, key);
    case BareBindOp(note, target, now, checked) =>
      BareFrame(s, note, target, now, checked);
      SameClaims(s, Step(s, p, op), key);
    case DeleteNoteOp(note) =>
      DeleteNoteFrame(s, note);
      SameClaims(s, Step(s, p, op), key);
    case ConfirmOp(k, c) =>
      ConfirmFrame(s, k, c);
      SameClaims(s, Step(s, p, op), key);
    case CreateTargetOp(targetId, row) =>
      CreateFrame(s, targetId, row);
      SameClaims(s, Step(s, p, op), key);
    case UpdateTargetOp(targetId, row, keepDefault) =>
      UpdateFrame(s, p, targetId, row, keepDefault);
      SameClaims(s, Step(s, p, op), key);
    case DeleteTargetOp(targetId) =>
      DeleteTargetFrame(s, targetId);
      SameClaims(s, Step(s, p, op), key);
    case _ => SameClaims(s, Step(s, p, op), key);
  }

  /** Under the invariant none was there before. */
  lemma NotBuriedBefore(s: Store, key: id)
    requires Inv(s) && key in s.claims
    ensures Core(s) && !BuriedBefore(s, key)
  {
    hide Inv, Core;
    InvIsCore(s);
    ClaimedIsBound(s, key);
  }

  lemma SameClaims(s: Store, t: Store, key: id)
    requires key in s.claims && t.claims == s.claims
    ensures KeptOrBuried(s, t, key)
  {
  }

  lemma DeleteTargetFrame(s: Store, targetId: id)
    ensures var t := DeleteTarget(s, targetId).0; t.claims == s.claims && t.bindings == s.bindings
  {
    hide TargetInUse;
  }

  lemma PutReleases(s: Store, r: PutRequest, now: int, key: id)
    requires Core(s) && key in s.claims
    ensures KeptOrBuried(s, PutBindingTx(s, r, now).0, key)
  {
    hide Core, TombstoneAndRelease, DropTombstones, PutCheck;
    CoreRefers(s);
    CoreClaim(s, key);
    var note, target := TrimSpace(r.note), TrimSpace(r.target);
    if note in s.bindings && s.bindings[note].target != target {
      Released(s, note, TargetChanged);
      DropSpares(TombstoneAndRelease(s, note, TargetChanged), note, target, key);
    } else {
      DropSpares(s, note, target, key);
    }
  }

  lemma DeleteReleases(s: Store, r: DeleteRequest, key: id)
    requires Core(s) && key in s.claims
    ensures KeptOrBuried(s, DeleteBindingTx(s, r).0, key)
  {
    hide Core, TombstoneAndRelease;
    CoreRefers(s);
    Released(s, TrimSpace(r.note), UserUnbound);
  }

  lemma ReserveSpares(s: Store, k: id, c: Claim, key: id)
    requires Core(s) && key in s.claims
    ensures var t := ReserveClaim(s, k, c).0; var moved := MoveAllowed(s, ReserveOp(k, c), key);
      && (KeptOrBuried(s, t, key) <==> !moved || BuriedBefore(s, key))
      && (moved ==> key !in t.claims && t.tombstones == s.tombstones)
  {
    hide Core;
    CoreRefers(s);
    CoreClaim(s, key);
  }

  lemma LegacySpares(s: Store, k: id, c: Claim, now: int, key: id)
    requires Core(s) && key in s.claims
    ensures var t := ReserveLegacy(s, k, c, now).0; var moved := MoveAllowed(s, LegacyOp(k, c, now), key);
      && (KeptOrBuried(s, t, key) <==> !moved || BuriedBefore(s, key))
      && (moved ==> key !in t.claims && t.tombstones == s.tombstones)
  {
    hide Core, ReserveClaim, BuriedBefore;
    CoreClaim(s, key);
    if c.note in s.bindings {
      ReserveSpares(s, k, c, key);
      ReserveRefused(s, k, c);
    } else {
      ReserveKeepsOthers(BindBare(s, c.note, c.target, now, false).0, k, c, key);
    }
  }

  lemma ReserveRefused(s: Store, k: id, c: Claim)
    ensures ReserveClaim(s, k, c).1 != Ok ==> ReserveClaim(s, k, c).0 == s
    ensures c.note in s.bindings && s.bindings[c.note].target != c.target ==> ReserveClaim(s, k, c).1 != Ok
  {
  }

  /** A reservation does not touch the claims of other notes. */
  lemma ReserveKeepsOthers(s: Store, k: id, c: Claim, key: id)
    requires key in s.claims && s.claims[key].note != c.note
    ensures var t := ReserveClaim(s, k, c).0; key in t.claims && t.claims[key] == s.claims[key]
  {
  }

  lemma DropSpares(s: Store, note: id, target: id, key: id)
    ensures var t := DropTombstones(s.(suppressions := s.suppressions - {(note, target)}), note, target);
      && t.claims == s.claims
      && (key in t.tombstones <==>
            key in s.tombstones && !(s.tombstones[key].formerNote == note && s.tombstones[key].target == target))
      && (key in t.tombstones ==> t.tombstones[key] == s.tombstones[key])
  {
  }

  /** The target is there and enabled, the caller's view of the binding is right, and a change of
      target is confirmed. */
  predicate PutAllowed(s: Store, note: id, target: id, r: PutRequest) {
    && note != [] && target != [] && target in s.targets && s.targets[target].enabled
    && (TrimSpace(r.expectedTarget) != [] ==> note in s.bindings && s.bindings[note].target == r.expectedTarget)
    && (note in s.bindings && s.bindings[note].target != target ==> r.confirmChangedTarget)
  }

  lemma PutAllowedIff(s: Store, r: PutRequest, now: int)
    ensures PutBindingTx(s, r, now).1 == Ok <==> PutAllowed(s, TrimSpace(r.note), TrimSpace(r.target), r)
    ensures PutBindingTx(s, r, now).1 != Ok ==> PutBindingTx(s, r, now).0 == s
  {
    hide Bind;
  }

  /** The operation asks to bind the note to the target, and the handler allows it. */
  predicate Binds(s: Store, op: Op, note: id, target: id) {
    && op.PutOp? && TrimSpace(op.put.note) == note && TrimSpace(op.put.target) == target
    && PutAllowed(s, note, target, op.put)
  }

  /** The operation deletes a target nothing refers to. */
  predicate Deletes(s: Store, op: Op, target: id) {
    op.DeleteTargetOp? && op.targetId == target && target in s.targets && !TargetInUse(s, target)
  }

  /** The caller's view of the binding is right. */
  predicate DeleteAllowed(s: Store, note: id, r: DeleteRequest) {
    && note != [] && note in s.bindings && s.bindings[note].target == r.expectedTarget
    && s.bindings[note].updatedAt == r.expectedUpdatedAt
  }

  lemma DeleteAllowedIff(s: Store, r: DeleteRequest)
    ensures DeleteBindingTx(s, r).1 == Ok <==> DeleteAllowed(s, TrimSpace(r.note), r)
    ensures DeleteBindingTx(s, r).1 != Ok ==> DeleteBindingTx(s, r).0 == s
  {
    hide Unbind;
  }

  /** The operation writes a tombstone for the claim of the note, if it has one. */
  predicate Remembers(s: Store, op: Op, note: id) {
    match op
    case PutOp(r, _) =>
      && note == TrimSpace(r.note) && PutAllowed(s, note, TrimSpace(r.target), r)
      && note in s.bindings && s.bindings[note].target != TrimSpace(r.target)
    case DeleteOp(r) => note == TrimSpace(r.note) && DeleteAllowed(s, note, r)
    case DeleteNoteOp(n) => note == n
    case ConfirmOp(_, c) => note == c.note
    case _ => false
  }

  /** The note has a claim at another key whose tombstone would take the slot of the one at this key. */
  predicate Supersedes(s: Store, note: id, key: id)
    requires key in s.tombstones
  {
    exists k :: k in s.claims && IsClaimOf(s, note, k) && k != key
                && SameSlot(s.tombstones[key], TombstoneFor(s.claims[k], UserUnbound))
  }

  /** A confirmed deletion without a claim writes a tombstone elsewhere that takes the slot. */
  predicate Overwrites(s: Store, op: Op, key: id)
    requires key in s.tombstones
  {
    && op.ConfirmOp? && !HasClaim(s, op.claim.note) && op.claim.target in s.targets && op.key != key
    && SameSlot(s.tombstones[key], TombstoneFor(op.claim, NoteDeleted))
  }

  /** The tombstone at the key goes: its note is bound to its target again, its target is deleted, or
      another tombstone takes its slot. Binding the note away from a claim at this very key writes a new
      one there. */
  predicate Loses(s: Store, op: Op, key: id)
    requires key in s.tombstones
  {
    var b := s.tombstones[key];
    || (Binds(s, op, b.formerNote, b.target) && !(Remembers(s, op, b.formerNote) && IsClaimOf(s, b.formerNote, key)))
    || Deletes(s, op, b.target)
    || (Remembers(s, op, b.formerNote) && Supersedes(s, b.formerNote, key))
    || Overwrites(s, op, key)
  }

  /** In every run, a key loses its tombstone exactly so. */
  lemma TombstoneLost(s: Store, p: Paths, op: Op, key: id)
    requires Core(s) && key in s.tombstones
    ensures key !in Step(s, p, op).tombstones <==> Loses(s, op, key)
  {
    hide Core, PutBindingTx, DeleteBindingTx, CreateTarget, UpdateTarget, TargetInUse, BindBare, ReserveClaim,
      ReserveLegacy, DeleteNoteTx, ConfirmDeletion, Supersedes, PutAllowed, DeleteAllowed;
    CoreRefers(s);
    match op
    case PutOp(r, now) => PutTombstones(s, r, now, key);
    case DeleteOp(r) => DeleteTombstones(s, r, key);
    case BareBindOp(note, target, now, checked) => BareFrame(s, note, target, now, checked);
    case ReserveOp(k, c) => ReserveFrame(s, k, c);
    case LegacyOp(k, c, now) => LegacyFrame(s, k, c, now);
    case DeleteNoteOp(note) => DeleteNoteTombstones(s, note, key);
    case ConfirmOp(k, c) => ConfirmTombstones(s, k, c, key);
    case CreateTargetOp(targetId, row) => CreateFrame(s, targetId, row);
    case UpdateTargetOp(targetId, row, keepDefault) => UpdateFrame(s, p, targetId, row, keepDefault);
    case _ =>
  }

  /** What remembering the claim of a note does to the tombstone at a key. */
  lemma DeleteNoteTombstones(s: Store, note: id, key: id)
    requires OneClaimEach(s) && key in s.tombstones
    ensures var t := DeleteNoteTx(s, note);
      && (key in t.tombstones <==> !Supersedes(s, note, key))
      && (key in t.tombstones ==>
            t.tombstones[key].formerNote == (if IsClaimOf(s, note, key) then note else s.tombstones[key].formerNote)
            && t.tombstones[key].target
               == (if IsClaimOf(s, note, key) then s.claims[key].target else s.tombstones[key].target))
    ensures Supersedes(s, note, key) ==> s.tombstones[key].formerNote == note
  {
    if HasClaim(s, note) {
      var k := ClaimKey(s, note);
      assert IsClaimOf(s, note, key) ==> key == k;
      if k != key && SameSlot(s.tombstones[key], TombstoneFor(s.claims[k], UserUnbound)) {
        assert IsClaimOf(s, note, k);
      }
    }
  }

  /** Releasing the claim as well changes no tombstone. */
  lemma ReleaseTombstones(s: Store, note: id, reason: Reason)
    ensures TombstoneAndRelease(s, note, reason).tombstones.Keys == DeleteNoteTx(s, note).tombstones.Keys
    ensures forall k :: k in DeleteNoteTx(s, note).tombstones ==>
      (var a, b := TombstoneAndRelease(s, note, reason).tombstones[k], DeleteNoteTx(s, note).tombstones[k];
       a.formerNote == b.formerNote && a.target == b.target)
  {
  }

  lemma DeleteTombstones(s: Store, r: DeleteRequest, key: id)
    requires Core(s) && key in s.tombstones
    ensures var note := TrimSpace(r.note);
      key !in DeleteBindingTx(s, r).0.tombstones <==> DeleteAllowed(s, note, r) && Supersedes(s, note, key)
    ensures Supersedes(s, TrimSpace(r.note), key) ==> s.tombstones[key].formerNote == TrimSpace(r.note)
  {
    hide Core, TombstoneAndRelease, DeleteNoteTx, Supersedes;
    CoreRefers(s);
    DeleteAllowedIff(s, r);
    ReleaseTombstones(s, TrimSpace(r.note), UserUnbound);
    DeleteNoteTombstones(s, TrimSpace(r.note), key);
  }

  lemma ConfirmTombstones(s: Store, k: id, c: Claim, key: id)
    requires Core(s) && key in s.tombstones
    ensures key !in ConfirmDeletion(s, k, c).0.tombstones <==>
      Supersedes(s, c.note, key) || Overwrites(s, ConfirmOp(k, c), key)
    ensures Supersedes(s, c.note, key) ==> s.tombstones[key].formerNote == c.note
  {
    hide Core, DeleteNoteTx;
    CoreRefers(s);
    DeleteNoteTombstones(s, c.note, key);
    if !HasClaim(s, c.note) {
      assert !Supersedes(s, c.note, key);
    }
  }

  lemma PutTombstones(s: Store, r: PutRequest, now: int, key: id)
    requires Core(s) && key in s.tombstones
    ensures key !in PutBindingTx(s, r, now).0.tombstones <==> Loses(s, PutOp(r, now), key)
  {
    hide Core, TombstoneAndRelease, DeleteNoteTx, DropTombstones, PutCheck, PutAllowed, Supersedes, TrimSpace;
    CoreRefers(s);
    PutAllowedIff(s, r, now);
    var note, target := TrimSpace(r.note), TrimSpace(r.target);
    ReleaseTombstones(s, note, TargetChanged);
    DeleteNoteTombstones(s, note, key);
    SupersededTarget(s, note, key);
    if IsClaimOf(s, note, key) {
      CoreClaim(s, key);
    }
    DropSpares(TombstoneAndRelease(s, note, TargetChanged), note, target, key);
    DropSpares(s, note, target, key);
  }

  lemma SupersededTarget(s: Store, note: id, key: id)
    requires Core(s) && key in s.tombstones
    ensures Supersedes(s, note, key) ==> note in s.bindings && s.tombstones[key].target == s.bindings[note].target
  {
    hide Core;
    if Supersedes(s, note, key) {
      var k :| k in s.claims && IsClaimOf(s, note, k) && k != key
        && SameSlot(s.tombstones[key], TombstoneFor(s.claims[k], UserUnbound));
      CoreClaim(s, k);
    }
  }

  ghost predicate NeverLost(s: Store, p: Paths, ops: seq<Op>, key: id)
    decreases |ops|
  {
    |ops| == 0
    || (!(key in s.tombstones && Loses(s, ops[0], key)) && NeverLost(Step(s, p, ops[0]), p, ops[1..], key))
  }

  /** A tombstone stays through every run in which no step takes it away. */
  lemma {:induction false} TombstonePersists(s: Store, p: Paths, ops: seq<Op>, key: id)
    requires Core(s) && key in s.tombstones && NeverLost(s, p, ops, key)
    ensures key in Run(s, p, ops).tombstones
    decreases |ops|
  {
    hide Core, Step, Loses;
    if |ops| > 0 {
      TombstoneLost(s, p, ops[0], key);
      CoreStep(s, p, ops[0]);
      TombstonePersists(Step(s, p, ops[0]), p, ops[1..], key);
    }
  }

  // ---------------------------------------------------------------- what a request achieves

  /** Binding succeeds exactly under the conditions the handler names, and then the note is bound to
      the target with nothing in the way; a request that fails writes nothing. */
  lemma PutOutcome(s: Store, r: PutRequest, now: int)
    requires Core(s)
    ensures var (t, err) := PutBindingTx(s, r, now); var note, target := TrimSpace(r.note), TrimSpace(r.target);
      && (err == Ok <==> PutAllowed(s, note, target, r))
      && (err != Ok ==> t == s)
      && (err == Ok ==> note in t.bindings && t.bindings[note].target == target && BindingOk(t, note))
      && (forall n :: n != note ==> (n in t.bindings <==> n in s.bindings))
      && (forall n :: n != note && n in s.bindings ==> t.bindings[n] == s.bindings[n])
  {
    hide Core, TombstoneAndRelease, DropTombstones, PutCheck, NothingBetween;
    CoreRefers(s);
    PutAllowedIff(s, r, now);
    var note, target := TrimSpace(r.note), TrimSpace(r.target);
    if PutBindingTx(s, r, now).1 == Ok {
      Released(s, note, TargetChanged);
      var released := TombstoneAndRelease(s, note, TargetChanged);
      var start := if note in s.bindings && s.bindings[note].target != target then released else s;
      DropKeepsBindings(start, note, target);
      DropClears(start, note, target);
      SameBetween(DropTombstones(start.(suppressions := start.suppressions - {(note, target)}), note, target),
                  PutBindingTx(s, r, now).0, note, target);
    }
  }

  lemma DropClears(s: Store, note: id, target: id)
    ensures NothingBetween(DropTombstones(s.(suppressions := s.suppressions - {(note, target)}), note, target),
                           note, target)
  {
  }

  /** Unbinding leaves the note unbound and without a claim, and suppressed for its former target. */
  lemma DeleteOutcome(s: Store, r: DeleteRequest)
    requires Core(s)
    ensures var (t, err) := DeleteBindingTx(s, r); var note := TrimSpace(r.note);
      && (err == Ok <==> DeleteAllowed(s, note, r))
      && (err != Ok ==> t == s)
      && (err == Ok ==> t.bindings == s.bindings - {note} && !HasClaim(t, note))
      && (err == Ok ==> t.suppressions == s.suppressions[(note, r.expectedTarget) := UserUnbound])
      && (forall k :: k in s.claims && s.claims[k].note != note ==> k in t.claims && t.claims[k] == s.claims[k])
  {
    hide Core, TombstoneAndRelease;
    CoreRefers(s);
    Released(s, TrimSpace(r.note), UserUnbound);
  }

  /** Unbinding and binding again leaves no trace of the unbinding: the note is bound to the target, no
      suppression and no tombstone was added, and only its claim is gone. A suppression that was between
      the two before goes as well; under the invariant there is none. */
  lemma RebindingUndoesUnbinding(s: Store, d: DeleteRequest, r: PutRequest, now: int)
    requires Core(s) && DeleteBindingTx(s, d).1 == Ok
    requires TrimSpace(r.note) == TrimSpace(d.note) && TrimSpace(r.target) == d.expectedTarget
    requires PutBindingTx(DeleteBindingTx(s, d).0, r, now).1 == Ok
    ensures var t := PutBindingTx(DeleteBindingTx(s, d).0, r, now).0; var note := TrimSpace(d.note);
      && t.bindings == s.bindings[note := Binding(d.expectedTarget, now, now)]
      && t.suppressions == s.suppressions - {(note, d.expectedTarget)}
      && (Inv(s) ==> t.suppressions == s.suppressions)
      && (forall k :: k in t.tombstones ==> k in s.tombstones && t.tombstones[k] == s.tombstones[k])
      && (forall k :: k in t.claims <==> k in s.claims && s.claims[k].note != note)
      && t.targets == s.targets && t.states == s.states
  {
    hide Core, Inv, TombstoneAndRelease, DropTombstones;
    CoreRefers(s);
    var note := TrimSpace(d.note);
    var u := DeleteBindingTx(s, d).0;
    Released(s, note, UserUnbound);
    DropKeepsBindings(u, note, d.expectedTarget);
    var t := PutBindingTx(u, r, now).0;
    if Inv(s) {
      SuppressionFree(s, note);
    }
    forall k | k in t.tombstones
      ensures k in s.tombstones && t.tombstones[k] == s.tombstones[k]
    {
      DropSpares(u, note, d.expectedTarget, k);
      if IsClaimOf(s, note, k) {
        CoreClaim(s, k);
      }
    }
  }

  lemma SuppressionFree(s: Store, note: id)
    requires Inv(s) && note in s.bindings
    ensures (note, s.bindings[note].target) !in s.suppressions
  {
    assert BindingOk(s, note);
  }

  // ---------------------------------------------------------------- targets in use

  /** What the handlers take a target to be. */
  datatype Identity = ObsidianAt(path: id) | NotionAt(source: Option<id>) | Unknown(kind: TargetType)

  function IdentityOf(p: Paths, t: Target): Identity {
    match t.kind
    case Obsidian => ObsidianAt(ObsidianIdentity(p, t))
    case Notion => NotionAt(NotionSource(t))
    case OtherType(_) => Unknown(t.kind)
  }

  /** The guard lets a change through exactly when the identity is the same and readable. */
  lemma UnchangedIsSame(p: Paths, a: Target, b: Target)
    ensures IdentityChanged(p, a, b) == Some(false) <==>
            IdentityOf(p, a) == IdentityOf(p, b) && (a.kind == Notion ==> NotionSource(a).Some?)
  {
  }

  /** Clearing a default does not touch an identity. */
  lemma SavedOthers(s: Store, p: Paths, targetId: id, row: Target, k: id)
    requires k in s.targets
    ensures var t := SaveTarget(s, targetId, row).0;
      && k in t.targets
      && (k != targetId ==> IdentityOf(p, t.targets[k]) == IdentityOf(p, s.targets[k]))
      && (k == targetId ==> t == s || t.targets[k] == row)
  {
  }

  /** While anything refers to a target, a step neither removes it nor changes what it is. */
  lemma UsedTargetKept(s: Store, p: Paths, op: Op, target: id)
    requires OneClaimEach(s) && Enabled(s, op) && TargetInUse(s, target) && target in s.targets
    ensures target in Step(s, p, op).targets
    ensures IdentityOf(p, Step(s, p, op).targets[target]) == IdentityOf(p, s.targets[target])
  {
    hide TombstoneAndRelease, DropTombstones, SaveTarget, MergeSecrets, IdentityChanged, TargetInUse, IdentityOf,
      PutCheck, NormalizeSecrets, BindBare, ReserveClaim, ReserveLegacy, DeleteNoteTx, ConfirmDeletion;
    match op
    case DeleteNoteOp(note) => DeleteNoteFrame(s, note);
    case ConfirmOp(k, c) => ConfirmFrame(s, k, c);
    case BareBindOp(note, bindTarget, now, checked) => BareFrame(s, note, bindTarget, now, checked);
    case ReserveOp(k, c) => ReserveFrame(s, k, c);
    case LegacyOp(k, c, now) => LegacyFrame(s, k, c, now);
    case PutOp(r, now) =>
      Released(s, TrimSpace(r.note), TargetChanged);
      DropKeepsBindings(s, TrimSpace(r.note), TrimSpace(r.target));
      var note, bound := TrimSpace(r.note), TrimSpace(r.target);
      DropKeepsBindings(TombstoneAndRelease(s, note, TargetChanged), note, bound);
    case DeleteOp(r) => Released(s, TrimSpace(r.note), UserUnbound);
    case CreateTargetOp(targetId, row) =>
      if NormalizeSecrets(row).Some? {
        SavedOthers(s, p, targetId, NormalizeSecrets(row).value, target);
      }
    case UpdateTargetOp(targetId, row, keepDefault) =>
      if CanMerge(s, targetId, row) {
        var t := Merged(s, targetId, NormalizeSecrets(row).value, keepDefault);
        SavedOthers(s, p, targetId, t, target);
        UnchangedIsSame(p, s.targets[targetId], t);
      }
    case _ =>
  }

  ghost predicate AlwaysInUse(s: Store, p: Paths, ops: seq<Op>, target: id)
    decreases |ops|
  {
    TargetInUse(s, target) && (|ops| == 0 || AlwaysInUse(Step(s, p, ops[0]), p, ops[1..], target))
  }

  /** A target keeps its identity for as long as any binding, claim or state refers to it. */
  lemma {:induction false} IdentityConstantWhileUsed(s: Store, p: Paths, ops: seq<Op>, target: id)
    requires Core(s) && IsRun(s, p, ops) && AlwaysInUse(s, p, ops, target) && target in s.targets
    ensures target in Run(s, p, ops).targets
    ensures IdentityOf(p, Run(s, p, ops).targets[target]) == IdentityOf(p, s.targets[target])
    decreases |ops|
  {
    hide Core, Step, TargetInUse, IdentityOf;
    if |ops| > 0 {
      CoreRefers(s);
      UsedTargetKept(s, p, ops[0], target);
      CoreStep(s, p, ops[0]);
      IdentityConstantWhileUsed(Step(s, p, ops[0]), p, ops[1..], target);
    }
  }

  /** A target that is used is there. */
  lemma UsedTargetExists(s: Store, target: id)
    requires Core(s) && TargetInUse(s, target)
    ensures target in s.targets
  {
    if k :| k in s.claims && s.claims[k].target == target {
      assert ClaimOk(s, k);
    }
  }

  // ---------------------------------------------------------------- defaults and secrets

  predicate DefaultFor(s: Store, k: id) {
    k in s.targets && s.targets[k].isDefault
  }

  /** At most one default target of each type. */
  ghost predicate OneDefault(s: Store) {
    forall k, l :: DefaultFor(s, k) && DefaultFor(s, l) && s.targets[k].kind == s.targets[l].kind ==> k == l
  }

  lemma OneDefaultKept(s: Store, p: Paths, op: Op)
    requires OneDefault(s) && OneClaimEach(s)
    ensures OneDefault(Step(s, p, op))
  {
    hide TombstoneAndRelease, DropTombstones, SaveTarget, MergeSecrets, IdentityChanged, TargetInUse, PutCheck,
      OneClaimEach, NormalizeSecrets, BindBare, ReserveClaim, ReserveLegacy, DeleteNoteTx, ConfirmDeletion;
    match op
    case DeleteNoteOp(note) => DeleteNoteFrame(s, note);
    case ConfirmOp(k, c) => ConfirmFrame(s, k, c);
    case BareBindOp(note, target, now, checked) => BareFrame(s, note, target, now, checked);
    case ReserveOp(k, c) => ReserveFrame(s, k, c);
    case LegacyOp(k, c, now) => LegacyFrame(s, k, c, now);
    case PutOp(r, now) =>
      Released(s, TrimSpace(r.note), TargetChanged);
      DropKeepsBindings(s, TrimSpace(r.note), TrimSpace(r.target));
      var note, bound := TrimSpace(r.note), TrimSpace(r.target);
      DropKeepsBindings(TombstoneAndRelease(s, note, TargetChanged), note, bound);
    case DeleteOp(r) => Released(s, TrimSpace(r.note), UserUnbound);
    case CreateTargetOp(targetId, row) =>
      if NormalizeSecrets(row).Some? {
        SaveKeepsOneDefault(s, targetId, NormalizeSecrets(row).value);
      }
    case UpdateTargetOp(targetId, row, keepDefault) =>
      if CanMerge(s, targetId, row) {
        SaveKeepsOneDefault(s, targetId, Merged(s, targetId, NormalizeSecrets(row).value, keepDefault));
      }
    case _ =>
  }

  lemma SaveKeepsOneDefault(s: Store, targetId: id, row: Target)
    requires OneDefault(s)
    ensures OneDefault(SaveTarget(s, targetId, row).0)
  {
  }

  /** Merging secrets changes nothing a target is identified by. */
  lemma MergeKeepsIdentity(p: Paths, existing: Target, next: Target)
    ensures MergeSecrets(existing, next).Some? ==>
      IdentityOf(p, MergeSecrets(existing, next).value) == IdentityOf(p, next)
  {
  }

  /** An update that sends a blank `token_env` does not clear the stored one: the blank is dropped before
      the merge that would have cleared it. */
  lemma BlankTokenEnvIsKept(existing: Target, next: Target)
    requires next.kind == Notion && existing.config.Object? && next.config.Object?
    requires next.config.tokenEnv.Some? && !NonEmpty(next.config.tokenEnv) && !NonEmpty(next.config.token)
    ensures NormalizeSecrets(next).Some? && MergeSecrets(existing, NormalizeSecrets(next).value).Some?
    ensures var merged := MergeSecrets(existing, NormalizeSecrets(next).value).value;
      merged.config.tokenEnv == Cleaned(existing.config.tokenEnv)
    ensures MergeSecrets(existing, next).value.config.tokenEnv == None
  {
    assert TrimSpace([]) == [];
  }

  /** The update and the merge of what was sent disagree about `token_env` exactly then: a blank one was
      sent, no token was, and one is stored. */
  lemma TokenEnvAsSentIff(existing: Target, next: Target)
    requires next.kind == Notion && existing.config.Object? && next.config.Object?
    ensures var merged := MergeSecrets(existing, NormalizeSecrets(next).value).value;
      merged.config.tokenEnv == MergeSecrets(existing, next).value.config.tokenEnv
      <==> !(next.config.tokenEnv.Some? && !NonEmpty(next.config.tokenEnv) && !NonEmpty(next.config.token)
             && NonEmpty(existing.config.tokenEnv))
  {
    hide TrimSpace;
    TrimTwice(next.config.token);
    TrimTwice(next.config.tokenEnv);
  }

  lemma TrimTwice(s: Option<id>)
    ensures Cleaned(Cleaned(s)) == Cleaned(s) && NonEmpty(Cleaned(s)) == NonEmpty(s)
  {
    if NonEmpty(s) {
      TrimIdempotent(s.value, Space());
    }
  }
}
