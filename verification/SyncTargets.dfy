/** What a sync target is taken to be, and exactly when it may be saved or deleted and what is stored
    then: backend/internal/handler/sync.go over the tables of `SyncBindings`. */
module SyncTargets {
  import opened Wrappers
  import opened Trimming
  import opened SyncBindings
  import SyncRuns

  // ---------------------------------------------------------------- identities

  /** The text with every backslash replaced by a slash. */
  predicate Slashed(s: id, t: id) {
    |s| == |t| && forall i :: 0 <= i < |t| ==> s[i] == if t[i] == 92 then 47 else t[i]
  }

  /** A backslash anywhere, or a colon behind a drive letter. */
  predicate FromWindows(path: id) {
    92 in path || (|path| >= 2 && path[1] == 58)
  }

  /** A path is cleaned with slashes only, without regard to letter case where either path of the target is
      one of Windows; no path and the current directory are nothing. */
  lemma PathSays(p: Paths, path: id, windows: bool, slashed: id)
    requires Slashed(slashed, TrimSpace(path))
    ensures PathIdentity(p, path, windows) ==
      if TrimSpace(path) == [] || p.clean(slashed) == [46] then []
      else if windows || FromWindows(TrimSpace(path)) then p.lower(p.clean(slashed))
      else p.clean(slashed)
  {
    hide TrimSpace;
    assert ToSlashes(TrimSpace(path)) == slashed;
    TrimAgain(path);
  }

  lemma TrimAgain(s: id)
    ensures TrimSpace(TrimSpace(s)) == TrimSpace(s)
  {
    TrimIdempotent(s, Space());
  }

  /** The name a Notion configuration gives its source. */
  predicate ReadsAs(t: Target, name: id) {
    && t.config.Object?
    && ((t.config.dataSource.Absent? && name == [])
        || (t.config.dataSource.DataSource? && name == TrimSpace(t.config.dataSource.name)))
  }

  /** Both targets stand for one place outside. */
  ghost predicate SamePlace(p: Paths, a: Target, b: Target) {
    && a.kind == b.kind
    && (a.kind == Obsidian ==>
          var wa, wb := WindowsLike(a.vaultPath), WindowsLike(b.vaultPath);
          PathIdentity(p, a.vaultPath, wa) + [10] + PathIdentity(p, a.baseFolder, wa)
            == PathIdentity(p, b.vaultPath, wb) + [10] + PathIdentity(p, b.baseFolder, wb))
    && (a.kind == Notion ==> exists name :: ReadsAs(a, name) && ReadsAs(b, name))
  }

  lemma WindowsSays(path: id)
    ensures WindowsLike(path) <==> 92 in path || FromWindows(TrimSpace(path))
  {
    if 92 in TrimSpace(path) {
      TrimmedPart(path, 92);
    }
  }

  lemma TrimmedPart(s: id, u: nat)
    requires u in TrimSpace(s)
    ensures u in s
  {
    var left := TrimLeft(s, Space());
    assert TrimRight(left, Space()) <= left;
    assert u in left;
    LeftIn(s, u);
  }

  lemma {:induction false} LeftIn(s: id, u: nat)
    requires u in TrimLeft(s, Space())
    ensures u in s
  {
    if |s| > 0 && Space()(s[0]) {
      LeftIn(s[1..], u);
    }
  }

  /** The guard finds a change exactly where the place is another one, if it can read both. */
  lemma ChangedIff(p: Paths, a: Target, b: Target)
    ensures IdentityChanged(p, a, b) == Some(false) <==> SamePlace(p, a, b)
    ensures IdentityChanged(p, a, b) == None <==>
      a.kind == Notion && b.kind == Notion && !(exists x, y :: ReadsAs(a, x) && ReadsAs(b, y))
  {
    hide TrimSpace, PathIdentity, WindowsLike;
    NotionSays(a);
    NotionSays(b);
  }

  lemma NotionSays(t: Target)
    ensures forall name :: NotionSource(t) == Some(name) <==> ReadsAs(t, name)
  {
  }

  // ---------------------------------------------------------------- saving and deleting

  /** The secret stored: the one sent, unless it is blank, and else the one that was there. */
  function SecretKept(sent: Option<id>, stored: Option<id>): Option<id> {
    if sent.Some? && TrimSpace(sent.value) != [] then Some(TrimSpace(sent.value))
    else if stored.Some? && TrimSpace(stored.value) != [] then Some(TrimSpace(stored.value))
    else None
  }

  ghost predicate Refers(s: Store, target: id) {
    || (exists n :: n in s.bindings && s.bindings[n].target == target)
    || (exists k :: k in s.claims && s.claims[k].target == target)
    || (exists n :: (n, target) in s.states)
  }

  predicate Complete(t: Target) {
    && !t.kind.OtherType? && t.config.Object?
    && (t.kind == Obsidian ==> TrimSpace(t.vaultPath) != [] && TrimSpace(t.baseFolder) != [])
  }

  lemma InUseIff(s: Store, target: id)
    ensures TargetInUse(s, target) <==> Refers(s, target)
  {
    forall x | x in s.states && x.1 == target
      ensures exists n :: (n, target) in s.states
    {
      assert (x.0, target) in s.states;
    }
    forall n | (n, target) in s.states
      ensures exists x :: x in s.states && x.1 == target
    {
      assert (n, target).1 == target;
    }
  }

  /** No target besides the saved one changed, except that a new default takes the place of the old one. */
  predicate OthersKept(s: Store, t: Store, targetId: id, row: Target) {
    && t == s.(targets := t.targets) && t.targets.Keys == s.targets.Keys + {targetId}
    && forall k :: k in s.targets && k != targetId ==>
         t.targets[k] == if row.isDefault && s.targets[k].kind == row.kind then s.targets[k].(isDefault := false)
                         else s.targets[k]
  }

  /** An update succeeds exactly for a complete target that exists and, while anything refers to it, stays
      in its place; it then stores what was sent, and of the secrets those sent or else those stored. */
  lemma UpdateOutcome(s: Store, p: Paths, targetId: id, next: Target, keepDefault: bool)
    ensures var (t, err) := UpdateTarget(s, p, targetId, next, keepDefault);
      && (err == Ok <==>
            && Complete(next) && targetId in s.targets && (next.kind == Notion ==> s.targets[targetId].config.Object?)
            && (Refers(s, targetId) ==> SamePlace(p, s.targets[targetId], next)))
      && (err != Ok ==> t == s)
      && (err == Ok ==>
            var stored, row := s.targets[targetId], t.targets[targetId];
            && OthersKept(s, t, targetId, row)
            && row == next.(config := row.config, isDefault := if keepDefault then stored.isDefault else next.isDefault)
            && row.config.Object? && row.config.dataSource == next.config.dataSource
            && (next.kind == Notion ==>
                  && row.config.token == SecretKept(next.config.token, stored.config.token)
                  && row.config.tokenEnv == if SecretKept(next.config.token, None).Some? then None
                                            else SecretKept(next.config.tokenEnv, stored.config.tokenEnv))
            && (next.kind != Notion ==> row.config == next.config))
  {
    hide TrimSpace, IdentityChanged, TargetInUse, SamePlace, Refers, SaveTarget;
    InUseIff(s, targetId);
    if targetId in s.targets && NormalizeSecrets(next).Some?
       && MergeSecrets(s.targets[targetId], NormalizeSecrets(next).value).Some? {
      var stored := s.targets[targetId];
      var merged := MergeSecrets(stored, NormalizeSecrets(next).value).value;
      var row := if keepDefault then merged.(isDefault := stored.isDefault) else merged;
      MergedSecrets(stored, next);
      ChangedIff(p, stored, row);
      SamePlaceAsSent(p, stored, next, row);
      Saved(s, targetId, row);
    }
  }

  lemma Saved(s: Store, targetId: id, row: Target)
    ensures var (t, err) := SaveTarget(s, targetId, row);
      && (err == Ok <==> !row.kind.OtherType? && row.config.Object?) && (err != Ok ==> t == s)
      && (err == Ok ==> OthersKept(s, t, targetId, row) && t.targets[targetId] == row)
  {
  }

  lemma MergedSecrets(stored: Target, next: Target)
    requires NormalizeSecrets(next).Some? && MergeSecrets(stored, NormalizeSecrets(next).value).Some?
    ensures var row := MergeSecrets(stored, NormalizeSecrets(next).value).value;
      && row == next.(config := row.config) && (next.kind != Notion ==> row == next)
      && (next.kind == Notion ==>
            && row.config.Object? && next.config.Object? && stored.config.Object?
            && row.config.dataSource == next.config.dataSource
            && row.config.token == SecretKept(next.config.token, stored.config.token)
            && row.config.tokenEnv == if SecretKept(next.config.token, None).Some? then None
                                      else SecretKept(next.config.tokenEnv, stored.config.tokenEnv))
  {
    hide TrimSpace;
    if next.kind == Notion && next.config.Object? {
      if next.config.token.Some? {
        TrimAgain(next.config.token.value);
      }
      if next.config.tokenEnv.Some? {
        TrimAgain(next.config.tokenEnv.value);
      }
    }
  }

  lemma SamePlaceAsSent(p: Paths, stored: Target, next: Target, row: Target)
    requires row == next.(config := row.config, isDefault := row.isDefault)
    requires next.kind == Notion ==>
               row.config.Object? && next.config.Object? && row.config.dataSource == next.config.dataSource
    ensures SamePlace(p, stored, row) <==> SamePlace(p, stored, next)
  {
    hide PathIdentity, WindowsLike, TrimSpace;
    if next.kind == Notion {
      assert forall name :: ReadsAs(row, name) <==> ReadsAs(next, name);
    }
  }

  /** A new target is stored exactly if it is complete, without its blank secrets. */
  lemma CreateOutcome(s: Store, targetId: id, next: Target)
    ensures var (t, err) := CreateTarget(s, targetId, next);
      && (err == Ok <==> Complete(next)) && (err != Ok ==> t == s)
      && (err == Ok ==>
            var row := t.targets[targetId];
            && OthersKept(s, t, targetId, row) && row == next.(config := row.config)
            && (next.kind == Notion ==>
                  row.config == Object(next.config.dataSource, SecretKept(next.config.token, None),
                                       SecretKept(next.config.tokenEnv, None)))
            && (next.kind != Notion ==> row == next))
  {
    hide TrimSpace, SaveTarget;
    if NormalizeSecrets(next).Some? {
      Saved(s, targetId, NormalizeSecrets(next).value);
    }
  }

  /** A target is deleted exactly if it exists and nothing refers to it; what kept notes from it goes too. */
  lemma DeleteTargetOutcome(s: Store, targetId: id)
    ensures var (t, err) := DeleteTarget(s, targetId);
      && (err == Ok <==> targetId in s.targets && !Refers(s, targetId)) && (err != Ok ==> t == s)
      && (err == Ok ==>
            && t == s.(targets := s.targets - {targetId}, suppressions := t.suppressions, tombstones := t.tombstones)
            && (forall x :: x in t.suppressions <==> x in s.suppressions && x.1 != targetId)
            && (forall x :: x in t.suppressions ==> t.suppressions[x] == s.suppressions[x])
            && (forall k :: k in t.tombstones <==> k in s.tombstones && s.tombstones[k].target != targetId)
            && (forall k :: k in t.tombstones ==> t.tombstones[k] == s.tombstones[k]))
  {
    hide TargetInUse, Refers;
    InUseIff(s, targetId);
  }

  // ---------------------------------------------------------------- claims and tombstones

  /** A claim is reserved exactly for a note that is bound to the target, under a key that is free or the
      note's own; the note then has no other claim, and every other claim stays. */
  lemma ReserveOutcome(s: Store, key: id, c: Claim)
    ensures var (t, err) := ReserveClaim(s, key, c);
      && (err == Ok <==>
            && c.note in s.bindings && s.bindings[c.note].target == c.target
            && (key in s.claims ==> s.claims[key].note == c.note && s.claims[key].target == c.target))
      && (err != Ok ==> t == s)
      && (err == Ok ==>
            && t == s.(claims := t.claims) && key in t.claims && t.claims[key] == c
            && (forall k :: k != key ==> (k in t.claims <==> k in s.claims && s.claims[k].note != c.note))
            && (forall k :: k != key && k in t.claims ==> t.claims[k] == s.claims[k]))
  {
  }

  /** A tombstone takes the place of the one at its key and of those for the same target, note and type. */
  lemma TombstonePut(s: Store, key: id, b: Tombstone)
    ensures var t := PutTombstone(s, key, b);
      && t == s.(tombstones := t.tombstones) && key in t.tombstones && t.tombstones[key] == b
      && (forall k :: k != key ==>
            (k in t.tombstones <==>
               k in s.tombstones && !(s.tombstones[k].target == b.target && s.tombstones[k].formerNote == b.formerNote
                                      && s.tombstones[k].externalType == b.externalType)))
      && (forall k :: k != key && k in t.tombstones ==> t.tombstones[k] == s.tombstones[k])
  {
  }

  /** A sync state is recorded exactly for a target that exists, and forgotten on its own. */
  lemma StateSteps(s: Store, p: Paths, note: id, target: id)
    ensures SyncRuns.Step(s, p, SyncRuns.StateOp(note, target))
      == if target in s.targets then s.(states := s.states + {(note, target)}) else s
    ensures SyncRuns.Step(s, p, SyncRuns.ForgetOp(note, target)) == s.(states := s.states - {(note, target)})
  {
  }
}
