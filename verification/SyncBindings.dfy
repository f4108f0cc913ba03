/** The note-sync tables of one workspace and the transactions on them, from
    backend/internal/handler/sync_binding.go and handler/sync.go over storage/sqlite/sync.go. */
module SyncBindings {
  import opened Wrappers
  import opened Trimming

  type id = seq<nat>

  // ---------------------------------------------------------------- rows

  datatype TargetType = Obsidian | Notion | OtherType(name: id)

  /** `data_source_id` in a Notion configuration. */
  datatype DataSource = Absent | DataSource(name: id) | NotAString

  /** `config_json`: not an object, or the parts of the object the handlers read; a secret that is
      absent or not a string is `None`. */
  datatype Config = NotAnObject | Object(dataSource: DataSource, token: Option<id>, tokenEnv: Option<id>)

  datatype Target = Target(kind: TargetType, name: id, vaultPath: id, baseFolder: id, config: Config,
                           enabled: bool, isDefault: bool)

  datatype Binding = Binding(target: id, createdAt: int, updatedAt: int)

  datatype Claim = Claim(note: id, target: id, externalType: id, externalId: id, externalPath: id)

  datatype Reason = UserUnbound | TargetChanged | NoteDeleted

  datatype Tombstone = Tombstone(target: id, formerNote: id, externalType: id, externalId: id, externalPath: id,
                                 reason: Reason)

  datatype Store = Store(
    targets: map<id, Target>,
    bindings: map<id, Binding>,
    claims: map<id, Claim>,
    suppressions: map<(id, id), Reason>,
    tombstones: map<id, Tombstone>,
    states: set<(id, id)>)

  const EMPTY: Store := Store(map[], map[], map[], map[], map[], {})

  datatype Err = Ok | NotFound | Disabled | Conflict | Unconfirmed | IdentityLocked | InUse | InvalidTarget
               | ClaimConflict | BindingRequired | BadConfig

  // ---------------------------------------------------------------- repository operations

  /** `GetExternalClaimByNote`: the key of the claim of a note. */
  predicate IsClaimOf(s: Store, note: id, key: id) {
    key in s.claims && s.claims[key].note == note
  }

  predicate HasClaim(s: Store, note: id) {
    exists k :: k in s.claims && IsClaimOf(s, note, k)
  }

  /** `PutImportTombstone`: the key's own tombstone and those for the same target, note and type go. */
  function PutTombstone(s: Store, key: id, t: Tombstone): Store {
    s.(tombstones := (map k | k in s.tombstones && !SameSlot(s.tombstones[k], t) :: s.tombstones[k])[key := t])
  }

  predicate SameSlot(a: Tombstone, b: Tombstone) {
    a.target == b.target && a.formerNote == b.formerNote && a.externalType == b.externalType
  }

  /** `ReleaseExternalClaim` */
  function ReleaseClaim(s: Store, note: id): Store {
    s.(claims := map k | k in s.claims && s.claims[k].note != note :: s.claims[k])
  }

  predicate IsFor(t: Tombstone, note: id, target: id) {
    t.formerNote == note && t.target == target
  }

  /** `DeleteImportTombstonesForNoteTarget` */
  function DropTombstones(s: Store, note: id, target: id): Store {
    s.(tombstones := map k | k in s.tombstones && !IsFor(s.tombstones[k], note, target) :: s.tombstones[k])
  }

  function TombstoneFor(c: Claim, reason: Reason): Tombstone {
    Tombstone(c.target, c.note, c.externalType, c.externalId, c.externalPath, reason)
  }

  /** UNIQUE (note_id) on the claims. */
  predicate OneClaimEach(s: Store) {
    forall k, l :: k in s.claims && l in s.claims && s.claims[k].note == s.claims[l].note ==> k == l
  }

  ghost function ClaimKey(s: Store, note: id): (key: id)
    requires HasClaim(s, note)
    ensures IsClaimOf(s, note, key)
  {
    var key :| IsClaimOf(s, note, key);
    key
  }

  /** `tombstoneAndReleaseClaim` */
  ghost function TombstoneAndRelease(s: Store, note: id, reason: Reason): Store {
    if !HasClaim(s, note) then s
    else
      var key := ClaimKey(s, note);
      ReleaseClaim(PutTombstone(s, key, TombstoneFor(s.claims[key], reason)), note)
  }

  // ---------------------------------------------------------------- deleting notes

  /** What `deleteNoteWithStore` writes here: the claim is remembered. The note is only marked deleted, so
      its binding and its claim stay. */
  ghost function DeleteNoteTx(s: Store, note: id): Store {
    if !HasClaim(s, note) then s
    else
      var key := ClaimKey(s, note);
      PutTombstone(s, key, TombstoneFor(s.claims[key], NoteDeleted))
  }

  /** `confirmObsidianDeletionWithStore` and `confirmNotionDeletionWithStore`: the claim is remembered, or
      the object `c` at `key` that the sync state names, and the state goes. */
  ghost function ConfirmDeletion(s: Store, key: id, c: Claim): (Store, Err) {
    if HasClaim(s, c.note) then (ForgetState(DeleteNoteTx(s, c.note), c.note, c.target), Ok)
    else if c.target !in s.targets then (s, NotFound)
    else (ForgetState(PutTombstone(s, key, TombstoneFor(c, NoteDeleted)), c.note, c.target), Ok)
  }

  // ---------------------------------------------------------------- binding and unbinding

  datatype PutRequest = PutRequest(note: id, target: id, expectedTarget: id, confirmChangedTarget: bool)

  /** What the transaction of `PutNoteSyncBinding` refuses. */
  function PutCheck(s: Store, note: id, target: id, r: PutRequest): Err {
    if target !in s.targets then NotFound
    else if !s.targets[target].enabled then Disabled
    else if note in s.bindings then
      var existing := s.bindings[note];
      if TrimSpace(r.expectedTarget) != [] && r.expectedTarget != existing.target then Conflict
      else if existing.target != target && !r.confirmChangedTarget then Unconfirmed
      else Ok
    else if TrimSpace(r.expectedTarget) != [] then Conflict
    else Ok
  }

  /** What it writes: the claim on another target is released, what kept the note and the target apart
      is deleted, and the binding is stored. */
  ghost function Bind(s: Store, note: id, target: id, now: int): Store {
    var released :=
      if note in s.bindings && s.bindings[note].target != target then TombstoneAndRelease(s, note, TargetChanged)
      else s;
    var dropped := DropTombstones(released.(suppressions := released.suppressions - {(note, target)}), note, target);
    var created := if note in s.bindings then s.bindings[note].createdAt else now;
    dropped.(bindings := dropped.bindings[note := Binding(target, created, now)])
  }

  /** `PutNoteSyncBinding` */
  ghost function PutBindingTx(s: Store, r: PutRequest, now: int): (Store, Err) {
    var note, target := TrimSpace(r.note), TrimSpace(r.target);
    if note == [] || target == [] then (s, InvalidTarget)
    else
      var err := PutCheck(s, note, target, r);
      if err == Ok then (Bind(s, note, target, now), Ok) else (s, err)
  }

  datatype DeleteRequest = DeleteRequest(note: id, expectedTarget: id, expectedUpdatedAt: int)

  /** What the transaction of `DeleteNoteSyncBinding` writes. */
  ghost function Unbind(s: Store, note: id): Store
    requires note in s.bindings
  {
    var released := TombstoneAndRelease(s, note, UserUnbound);
    released.(suppressions := released.suppressions[(note, s.bindings[note].target) := UserUnbound],
              bindings := released.bindings - {note})
  }

  /** `DeleteNoteSyncBinding` */
  ghost function DeleteBindingTx(s: Store, r: DeleteRequest): (Store, Err) {
    var note := TrimSpace(r.note);
    if note == [] then (s, InvalidTarget)
    else if note !in s.bindings then (s, NotFound)
    else if s.bindings[note].target != r.expectedTarget || s.bindings[note].updatedAt != r.expectedUpdatedAt then
      (s, Conflict)
    else (Unbind(s, note), Ok)
  }

  // ---------------------------------------------------------------- what the synchronisers write

  /** A synchroniser binds a note without a request: `ensureOrCreatePullBindingInStore`, which respects a
      suppression (`checked`), and `bindImportedNoteToSyncTargetInStore`, which does not. Neither deletes
      anything to make room for the binding. */
  function BindBare(s: Store, note: id, target: id, now: int, checked: bool): (Store, Err) {
    if note in s.bindings then (s, if s.bindings[note].target == target then Ok else Conflict)
    else if checked && (note, target) in s.suppressions then (s, BindingRequired)
    else if target !in s.targets then (s, NotFound)
    else (s.(bindings := s.bindings[note := Binding(target, now, now)]), Ok)
  }

  /** A synchroniser reserves an external object for a note: the note must be bound to the target and
      the key must be free or its own; another key of the note is given up. */
  function ReserveClaim(s: Store, key: id, c: Claim): (Store, Err) {
    if c.note !in s.bindings then (s, BindingRequired)
    else if s.bindings[c.note].target != c.target then (s, Conflict)
    else if key in s.claims && (s.claims[key].note != c.note || s.claims[key].target != c.target) then
      (s, ClaimConflict)
    else (s.(claims := ReleaseClaim(s, c.note).claims[key := c]), Ok)
  }

  /** The reservation of the older default-target routes, which bind the note in the same transaction. */
  function ReserveLegacy(s: Store, key: id, c: Claim, now: int): (Store, Err) {
    var (bound, bindErr) := BindBare(s, c.note, c.target, now, false);
    if bindErr != Ok then (s, bindErr)
    else
      var (t, err) := ReserveClaim(bound, key, c);
      (if err == Ok then t else s, err)
  }

  /** `UpsertState`; the target is a foreign key. */
  function RecordState(s: Store, note: id, target: id): (Store, Err) {
    if target in s.targets then (s.(states := s.states + {(note, target)}), Ok) else (s, NotFound)
  }

  /** `DeleteState` */
  function ForgetState(s: Store, note: id, target: id): Store {
    s.(states := s.states - {(note, target)})
  }

  // ---------------------------------------------------------------- targets

  /** The path functions of the Go library: `path.Clean` and `strings.ToLower`. */
  datatype Paths = Paths(clean: id -> id, lower: id -> id)

  const SLASH: nat := 47
  const BACKSLASH: nat := 92
  const COLON: nat := 58
  const DOT: nat := 46
  const NEWLINE: nat := 10

  /** `strings.ReplaceAll(s, "\\", "/")` */
  function ToSlashes(s: id): id {
    seq(|s|, i requires 0 <= i < |s| => if s[i] == BACKSLASH then SLASH else s[i])
  }

  /** `isWindowsLikePath` */
  predicate WindowsLike(path: id) {
    BACKSLASH in path || (|TrimSpace(path)| >= 2 && TrimSpace(path)[1] == COLON)
  }

  /** `normalizeSyncPathIdentity` */
  function PathIdentity(p: Paths, path: id, windowsLike: bool): id {
    var trimmed := TrimSpace(path);
    if trimmed == [] then []
    else
      var normalized := p.clean(ToSlashes(trimmed));
      if normalized == [DOT] then []
      else if windowsLike || WindowsLike(trimmed) then p.lower(normalized)
      else normalized
  }

  /** `obsidianIdentity` */
  function ObsidianIdentity(p: Paths, t: Target): id {
    var windows := WindowsLike(t.vaultPath);
    PathIdentity(p, t.vaultPath, windows) + [NEWLINE] + PathIdentity(p, t.baseFolder, windows)
  }

  /** `notionDataSourceID`: an error for a configuration that is no object or a source that is no string. */
  function NotionSource(t: Target): Option<id> {
    match t.config
    case NotAnObject => None
    case Object(source, _, _) =>
      match source
      case Absent => Some([])
      case DataSource(name) => Some(TrimSpace(name))
      case NotAString => None
  }

  /** `syncTargetIdentityChanged`; `None` is its error. */
  function IdentityChanged(p: Paths, existing: Target, next: Target): Option<bool> {
    if existing.kind != next.kind then Some(true)
    else match existing.kind
         case Obsidian => Some(ObsidianIdentity(p, existing) != ObsidianIdentity(p, next))
         case Notion =>
           if NotionSource(existing).None? || NotionSource(next).None? then None
           else Some(NotionSource(existing) != NotionSource(next))
         case OtherType(_) => Some(false)
  }

  predicate NonEmpty(s: Option<id>) {
    s.Some? && TrimSpace(s.value) != []
  }

  function Cleaned(s: Option<id>): Option<id> {
    if NonEmpty(s) then Some(TrimSpace(s.value)) else None
  }

  /** `normalizeSyncTargetConfigForStorage`: blank secrets are dropped; `None` is its error. */
  function NormalizeSecrets(t: Target): Option<Target> {
    if t.kind != Notion then Some(t)
    else match t.config
         case NotAnObject => None
         case Object(source, token, tokenEnv) => Some(t.(config := Object(source, Cleaned(token), Cleaned(tokenEnv))))
  }

  /** `mergeSyncTargetSecretConfig`: a token that is not sent again is kept; `None` is its error. */
  function MergeSecrets(existing: Target, next: Target): Option<Target> {
    if next.kind != Notion then Some(next)
    else if existing.config.NotAnObject? || next.config.NotAnObject? then None
    else
      var kept, sent := existing.config, next.config;
      var token := if NonEmpty(sent.token) then Cleaned(sent.token) else Cleaned(kept.token);
      var tokenEnv :=
        if NonEmpty(sent.token) then None
        else if sent.tokenEnv.Some? then Cleaned(sent.tokenEnv)
        else Cleaned(kept.tokenEnv);
      Some(next.(config := Object(sent.dataSource, token, tokenEnv)))
  }

  /** `syncTargetInUse` */
  predicate TargetInUse(s: Store, target: id) {
    || (exists n :: n in s.bindings && s.bindings[n].target == target)
    || (exists k :: k in s.claims && s.claims[k].target == target)
    || (exists x :: x in s.states && x.1 == target)
  }

  /** `SaveTarget`: the row, and no other default of its type. */
  function SaveTarget(s: Store, targetId: id, t: Target): (Store, Err) {
    if t.kind.OtherType? then (s, InvalidTarget)
    else if t.config.NotAnObject? then (s, BadConfig)
    else
      var others := map k | k in s.targets ::
        if t.isDefault && k != targetId && s.targets[k].kind == t.kind then s.targets[k].(isDefault := false)
        else s.targets[k];
      (s.(targets := others[targetId := t]), Ok)
  }

  /** `validateSyncTargetRequest` */
  predicate ValidTargetRequest(t: Target) {
    t.kind == Obsidian ==> TrimSpace(t.vaultPath) != [] && TrimSpace(t.baseFolder) != []
  }

  /** `SaveSyncTarget`: a new row under a new identifier. */
  function CreateTarget(s: Store, targetId: id, t: Target): (Store, Err) {
    if !ValidTargetRequest(t) then (s, InvalidTarget)
    else match NormalizeSecrets(t)
         case None => (s, BadConfig)
         case Some(normal) => SaveTarget(s, targetId, normal)
  }

  /** `updateSyncTargetGuarded` */
  function UpdateTargetGuarded(s: Store, p: Paths, targetId: id, next: Target, keepDefault: bool): (Store, Err) {
    if targetId !in s.targets then (s, NotFound)
    else match MergeSecrets(s.targets[targetId], next)
         case None => (s, BadConfig)
         case Some(merged) =>
           var t := if keepDefault then merged.(isDefault := s.targets[targetId].isDefault) else merged;
           if TargetInUse(s, targetId) then
             (match IdentityChanged(p, s.targets[targetId], t)
              case None => (s, BadConfig)
              case Some(changed) => if changed then (s, IdentityLocked) else SaveTarget(s, targetId, t))
           else SaveTarget(s, targetId, t)
  }

  /** `UpdateSyncTarget` */
  function UpdateTarget(s: Store, p: Paths, targetId: id, next: Target, keepDefault: bool): (Store, Err) {
    if !ValidTargetRequest(next) then (s, InvalidTarget)
    else match NormalizeSecrets(next)
         case None => (s, BadConfig)
         case Some(normal) => UpdateTargetGuarded(s, p, targetId, normal, keepDefault)
  }

  /** `deleteSyncTargetGuarded`; suppressions and tombstones of the target go with it. */
  function DeleteTarget(s: Store, targetId: id): (Store, Err) {
    if targetId !in s.targets then (s, NotFound)
    else if TargetInUse(s, targetId) then (s, InUse)
    else (s.(targets := s.targets - {targetId},
             suppressions := map x | x in s.suppressions && x.1 != targetId :: s.suppressions[x],
             tombstones := map k | k in s.tombstones && s.tombstones[k].target != targetId :: s.tombstones[k]), Ok)
  }

  // ---------------------------------------------------------------- the handlers

  class SyncStore {
    var targets: map<id, Target>
    var bindings: map<id, Binding>
    var claims: map<id, Claim>
    var suppressions: map<(id, id), Reason>
    var tombstones: map<id, Tombstone>
    var states: set<(id, id)>

    constructor ()
      ensures Contents() == EMPTY
    {
      targets, bindings, claims, suppressions, tombstones, states := map[], map[], map[], map[], map[], {};
    }

    function Contents(): Store
      reads this
    {
      Store(targets, bindings, claims, suppressions, tombstones, states)
    }

    method PutImportTombstone(key: id, t: Tombstone)
      modifies this`tombstones
      ensures Contents() == PutTombstone(old(Contents()), key, t)
    {
      tombstones := map k | k in tombstones && !SameSlot(tombstones[k], t) :: tombstones[k];
      tombstones := tombstones[key := t];
    }

    method TombstoneAndReleaseClaim(note: id, reason: Reason)
      requires OneClaimEach(Contents())
      modifies this`claims, this`tombstones
      ensures Contents() == TombstoneAndRelease(old(Contents()), note, reason)
    {
      if !HasClaim(Contents(), note) {
        return;
      }
      ghost var before := Contents();
      var key :| key in claims && IsClaimOf(Contents(), note, key);
      assert key == ClaimKey(before, note);
      var claim := claims[key];
      PutImportTombstone(key, TombstoneFor(claim, reason));
      claims := map k | k in claims && claims[k].note != note :: claims[k];
      assert Contents() == ReleaseClaim(PutTombstone(before, key, TombstoneFor(claim, reason)), note);
    }

    method PutNoteSyncBinding(request: PutRequest, now: int) returns (changedTarget: bool, err: Err)
      requires OneClaimEach(Contents())
      modifies this`bindings, this`claims, this`suppressions, this`tombstones
      ensures (Contents(), err) == PutBindingTx(old(Contents()), request, now)
      ensures var note := TrimSpace(request.note);
        err == Ok ==>
          (changedTarget <==> note in old(bindings) && old(bindings)[note].target != TrimSpace(request.target))
    {
      changedTarget := false;
      var note, target := TrimSpace(request.note), TrimSpace(request.target);
      if note == [] || target == [] {
        return false, InvalidTarget;
      }
      if target !in targets {
        return false, NotFound;
      }
      if !targets[target].enabled {
        return false, Disabled;
      }
      var createdAt := now;
      if note in bindings {
        var existing := bindings[note];
        if TrimSpace(request.expectedTarget) != [] && request.expectedTarget != existing.target {
          return false, Conflict;
        }
        changedTarget := existing.target != target;
        if changedTarget && !request.confirmChangedTarget {
          return changedTarget, Unconfirmed;
        }
        if changedTarget {
          TombstoneAndReleaseClaim(note, TargetChanged);
        }
        createdAt := existing.createdAt;
      } else if TrimSpace(request.expectedTarget) != [] {
        return false, Conflict;
      }
      suppressions := suppressions - {(note, target)};
      tombstones := map k | k in tombstones && !IsFor(tombstones[k], note, target) :: tombstones[k];
      bindings := bindings[note := Binding(target, createdAt, now)];
      return changedTarget, Ok;
    }

    method DeleteNoteSyncBinding(request: DeleteRequest) returns (err: Err)
      requires OneClaimEach(Contents())
      modifies this`bindings, this`claims, this`suppressions, this`tombstones
      ensures (Contents(), err) == DeleteBindingTx(old(Contents()), request)
    {
      var note := TrimSpace(request.note);
      if note == [] {
        return InvalidTarget;
      }
      if note !in bindings {
        return NotFound;
      }
      var existing := bindings[note];
      if existing.target != request.expectedTarget || existing.updatedAt != request.expectedUpdatedAt {
        return Conflict;
      }
      TombstoneAndReleaseClaim(note, UserUnbound);
      suppressions := suppressions[(note, existing.target) := UserUnbound];
      bindings := bindings - {note};
      return Ok;
    }

    method DeleteSyncTargetGuarded(targetId: id) returns (err: Err)
      modifies this`targets, this`suppressions, this`tombstones
      ensures (Contents(), err) == DeleteTarget(old(Contents()), targetId)
    {
      if targetId !in targets {
        return NotFound;
      }
      if TargetInUse(Contents(), targetId) {
        return InUse;
      }
      suppressions := map x | x in suppressions && x.1 != targetId :: suppressions[x];
      tombstones := map k | k in tombstones && tombstones[k].target != targetId :: tombstones[k];
      targets := targets - {targetId};
      return Ok;
    }

    method UpdateSyncTargetGuarded(paths: Paths, targetId: id, next: Target, keepDefault: bool) returns (err: Err)
      modifies this`targets
      ensures (Contents(), err) == UpdateTargetGuarded(old(Contents()), paths, targetId, next, keepDefault)
    {
      if targetId !in targets {
        return NotFound;
      }
      var existing := targets[targetId];
      var merged := MergeSecrets(existing, next);
      if merged.None? {
        return BadConfig;
      }
      var target := merged.value;
      if keepDefault {
        target := target.(isDefault := existing.isDefault);
      }
      if TargetInUse(Contents(), targetId) {
        var changed := IdentityChanged(paths, existing, target);
        if changed.None? {
          return BadConfig;
        }
        if changed.value {
          return IdentityLocked;
        }
      }
      var saved := SaveTarget(Contents(), targetId, target);
      targets := saved.0.targets;
      return saved.1;
    }
  }
}
