/** The durable generation queue of backend/internal/generationclaims/repository.go: one row a
    workspace, claimed under a lease and acknowledged at most once. Identifiers are sequences of code
    points; instants are nanoseconds since January 1 of year 1, which is Go's zero time. */
module GenerationClaims {
  import opened Wrappers
  import opened Trimming
  import Text

  type id = seq<nat>
  type instant = int

  // ---------------------------------------------------------------- times

  const MICROSECOND: int := 1000

  /** `normalizeTime`: whole microseconds, rounded towards the past. */
  function NormalizeTime(t: instant): instant {
    t - t % MICROSECOND
  }

  predicate IsZero(t: instant) {
    t == 0
  }

  // ---------------------------------------------------------------- rows

  datatype Status = Queued | Claimed | RetryPending | Completed | Failed

  datatype ErrorCode = InvalidRuntime | RuntimeResolveFailed | FencedWriteFailed | OtherCode(name: id)

  /** A row of `task_domain_generation_jobs`; the workspace is the key of the table. */
  datatype Row = Row(
    jobId: id,
    claimId: Option<id>,
    createdEpoch: int,
    status: Status,
    attempt: int,
    availableAt: instant,
    leaseUntil: Option<instant>,
    runtimeEpoch: Option<int>,
    inserted: int,
    watermark: Option<id>,
    errorCode: Option<ErrorCode>,
    revision: int)

  type Table = map<id, Row>

  /** The CHECK clauses of the schema. */
  predicate RowValid(row: Row) {
    && row.createdEpoch > 0 && row.attempt >= 0 && row.inserted >= 0 && row.revision > 0
    && (row.runtimeEpoch.Some? ==> row.runtimeEpoch.value > 0)
    && (row.errorCode.Some? ==> !row.errorCode.value.OtherCode?)
    && match row.status
       case Queued => row.claimId.None? && row.leaseUntil.None? && row.runtimeEpoch.None?
                      && row.attempt == 0 && row.inserted == 0 && row.watermark.None? && row.errorCode.None?
       case Claimed => row.claimId.Some? && row.leaseUntil.Some?
                       && row.runtimeEpoch.None? && row.inserted == 0 && row.watermark.None? && row.errorCode.None?
       case RetryPending => row.claimId.Some? && row.leaseUntil.None? && row.errorCode.Some?
       case Completed => row.claimId.Some? && row.leaseUntil.None? && row.runtimeEpoch.Some? && row.errorCode.None?
       case Failed => row.claimId.Some? && row.leaseUntil.None? && row.errorCode.Some?
  }

  /** `job_id` is the primary key. */
  predicate JobIdTaken(t: Table, jobId: id, except: id) {
    exists ws :: ws in t && ws != except && t[ws].jobId == jobId
  }

  datatype Err = Ok | InvalidJob | InvalidClaim | JobNotFound | JobConflict | ClaimConflict | UniqueViolation

  // ---------------------------------------------------------------- scheduling

  datatype EnqueueRequest = EnqueueRequest(jobId: id, workspaceId: id, createdEpoch: int, availableAt: instant)

  function NormalRequest(r: EnqueueRequest): EnqueueRequest {
    EnqueueRequest(TrimSpace(r.jobId), TrimSpace(r.workspaceId), r.createdEpoch, NormalizeTime(r.availableAt))
  }

  predicate ValidRequest(r: EnqueueRequest) {
    r.jobId != [] && r.workspaceId != [] && r.createdEpoch >= 1 && !IsZero(r.availableAt)
  }

  /** The row the INSERT writes. */
  function NewRow(r: EnqueueRequest): Row {
    Row(r.jobId, None, r.createdEpoch, Queued, 0, r.availableAt, None, None, 0, None, None, 1)
  }

  /** The row after the columns of an ended cycle are cleared. */
  function Requeued(row: Row, epoch: int, at: instant): Row {
    Row(row.jobId, None, epoch, Queued, 0, at, None, None, 0, None, None, row.revision + 1)
  }

  predicate CanInsert(t: Table, r: EnqueueRequest) {
    r.workspaceId !in t && !JobIdTaken(t, r.jobId, r.workspaceId)
  }

  /** INSERT ... ON CONFLICT DO NOTHING */
  function InsertJob(t: Table, r: EnqueueRequest): Table {
    if CanInsert(t, r) then t[r.workspaceId := NewRow(r)] else t
  }

  /** A row at the start of the cycle a request asks for: waiting, unclaimed and without a result. */
  predicate FreshCycle(row: Row, r: EnqueueRequest) {
    && row.jobId == r.jobId && row.createdEpoch == r.createdEpoch && row.availableAt == r.availableAt
    && row.status == Queued && row.attempt == 0 && row.claimId == None && row.leaseUntil == None
    && row.runtimeEpoch == None && row.inserted == 0 && row.watermark == None && row.errorCode == None
  }

  predicate Terminal(row: Row) {
    row.status == Completed || row.status == Failed
  }

  /** INSERT ... ON CONFLICT(workspace_id) DO UPDATE ... WHERE status IN ('completed','failed'):
      the new table and the number of rows written, or None for a violated key. */
  function UpsertJob(t: Table, r: EnqueueRequest): Option<(Table, nat)> {
    if r.workspaceId in t && !Terminal(t[r.workspaceId]) then Some((t, 0))
    else if JobIdTaken(t, r.jobId, r.workspaceId) then None
    else if r.workspaceId !in t then Some((t[r.workspaceId := NewRow(r)], 1))
    else
      var row := Requeued(t[r.workspaceId], r.createdEpoch, r.availableAt);
      Some((t[r.workspaceId := row.(jobId := r.jobId)], 1))
  }

  /** UPDATE ... WHERE workspace_id=? AND status<>'claimed' */
  function RescheduleJob(t: Table, ws: id, epoch: int, at: instant): Table {
    if ws in t && t[ws].status != Claimed then t[ws := Requeued(t[ws], epoch, at)] else t
  }

  // ---------------------------------------------------------------- claiming

  predicate Eligible(row: Row, at: instant) {
    ((row.status == Queued || row.status == RetryPending) && row.availableAt <= at)
    || (row.status == Claimed && row.leaseUntil.Some? && row.leaseUntil.value <= at)
  }

  /** ORDER BY available_at, workspace_id */
  predicate Before(t: Table, u: id, w: id)
    requires u in t && w in t
  {
    t[u].availableAt < t[w].availableAt || (t[u].availableAt == t[w].availableAt && Text.Less(u, w))
  }

  predicate IsFirst(t: Table, at: instant, ws: id) {
    ws in t && Eligible(t[ws], at) && forall w :: w in t && w != ws && Eligible(t[w], at) ==> Before(t, ws, w)
  }

  predicate AnyEligible(t: Table, at: instant) {
    exists ws :: ws in t && Eligible(t[ws], at)
  }

  function ClaimedRow(row: Row, claimId: id, until: instant): Row {
    Row(row.jobId, Some(claimId), row.createdEpoch, Claimed, row.attempt + 1, row.availableAt, Some(until),
        None, 0, None, None, row.revision + 1)
  }

  lemma BeforeIsOrder(t: Table, u: id, v: id, w: id)
    requires u in t && v in t && w in t
    ensures u == v || Before(t, u, v) || Before(t, v, u)
    ensures !(Before(t, u, v) && Before(t, v, u)) && !Before(t, u, u)
    ensures Before(t, u, v) && Before(t, v, w) ==> Before(t, u, w)
  {
    Text.Trichotomy(u, v);
    Text.Irreflexive(u);
    if Text.Less(u, v) && Text.Less(v, w) {
      Text.Transitive(u, v, w);
    }
  }

  /** A set of rows that is not empty has a first one. */
  lemma {:induction false} FirstOf(t: Table, s: set<id>) returns (ws: id)
    requires s != {} && s <= t.Keys
    ensures ws in s && forall w :: w in s && w != ws ==> Before(t, ws, w)
    decreases |s|
  {
    hide Before;
    var x :| x in s;
    if s == {x} {
      ws := x;
    } else {
      var y := FirstOf(t, s - {x});
      BeforeIsOrder(t, x, y, x);
      ws := if Before(t, x, y) then x else y;
      forall w | w in s && w != ws
        ensures Before(t, ws, w)
      {
        BeforeIsOrder(t, x, y, w);
      }
    }
  }

  lemma FirstExists(t: Table, at: instant)
    requires AnyEligible(t, at)
    ensures exists ws :: IsFirst(t, at, ws)
  {
    hide Before, Eligible;
    var s := set w | w in t && Eligible(t[w], at);
    var w :| w in t && Eligible(t[w], at);
    assert w in s;
    var ws := FirstOf(t, s);
    assert IsFirst(t, at, ws);
  }

  lemma FirstIsUnique(t: Table, at: instant, u: id, w: id)
    requires IsFirst(t, at, u) && IsFirst(t, at, w)
    ensures u == w
  {
    hide Before;
    BeforeIsOrder(t, u, w, u);
  }

  /** The workspace the sub-select of `claimOne` finds. */
  ghost function First(t: Table, at: instant): (r: Option<id>)
    ensures r.None? <==> !AnyEligible(t, at)
    ensures r.Some? ==> IsFirst(t, at, r.value)
  {
    if AnyEligible(t, at) then
      FirstExists(t, at);
      var ws :| IsFirst(t, at, ws);
      Some(ws)
    else None
  }

  /** `claimOne`: the table and the workspace claimed. */
  ghost function ClaimOne(t: Table, claimId: id, at: instant, until: instant): (Table, Option<id>) {
    match First(t, at)
    case None => (t, None)
    case Some(ws) => (t[ws := ClaimedRow(t[ws], claimId, until)], Some(ws))
  }

  datatype Claim = Claim(claimId: id, workspaceId: id, createdEpoch: int)

  /** The claims made so far and those of the rest of the loop. */
  function Continued(claims: seq<Claim>, rest: (Table, seq<Claim>)): (Table, seq<Claim>) {
    (rest.0, claims + rest.1)
  }

  lemma ContinuedLaws(claims: seq<Claim>, more: seq<Claim>, rest: (Table, seq<Claim>))
    ensures Continued([], rest) == rest && Continued(claims, (rest.0, [])) == (rest.0, claims)
    ensures Continued(claims, Continued(more, rest)) == Continued(claims + more, rest)
  {
    assert [] + rest.1 == rest.1 && claims + [] == claims;
    assert claims + (more + rest.1) == (claims + more) + rest.1;
  }

  /** The loop of `ClaimGenerationWorkspaces`, one claim for each identifier drawn. */
  ghost function ClaimAll(t: Table, ids: seq<id>, at: instant, until: instant): (Table, seq<Claim>)
    decreases |ids|
  {
    if |ids| == 0 || First(t, at).None? then (t, [])
    else
      var ws := First(t, at).value;
      Continued([Claim(ids[0], ws, t[ws].createdEpoch)],
                ClaimAll(t[ws := ClaimedRow(t[ws], ids[0], until)], ids[1..], at, until))
  }

  lemma ClaimAllStep(t: Table, ids: seq<id>, at: instant, until: instant)
    ensures |ids| == 0 ==> ClaimAll(t, ids, at, until) == (t, [])
    ensures |ids| > 0 ==>
      var (t', ws) := ClaimOne(t, ids[0], at, until);
      ClaimAll(t, ids, at, until) == match ws
        case None => (t, [])
        case Some(w) =>
          Continued([Claim(ids[0], w, t[w].createdEpoch)], ClaimAll(t', ids[1..], at, until))
  {
  }

  // ---------------------------------------------------------------- completing

  /** The states a worker may report; any other string is refused like `Running`. */
  datatype GenerationStatus = Idle | Running | ToRetry | GivenUp

  datatype Outcome = Outcome(
    claimId: id,
    workspaceId: id,
    createdEpoch: int,
    runtimeEpoch: int,
    status: GenerationStatus,
    inserted: int,
    watermark: id,
    retryAt: instant,
    errorCode: Option<ErrorCode>)

  function NormalOutcome(o: Outcome): Outcome {
    o.(claimId := TrimSpace(o.claimId), workspaceId := TrimSpace(o.workspaceId),
       watermark := TrimSpace(o.watermark), retryAt := NormalizeTime(o.retryAt))
  }

  predicate CanonicalErrorCode(code: Option<ErrorCode>) {
    code.Some? && !code.value.OtherCode?
  }

  /** `validateOutcome` */
  predicate ValidOutcome(o: Outcome) {
    && o.claimId != [] && o.workspaceId != [] && o.createdEpoch >= 1 && o.runtimeEpoch >= 0 && o.inserted >= 0
    && match o.status
       case Idle => o.runtimeEpoch >= 1 && IsZero(o.retryAt) && o.errorCode.None?
       case ToRetry => !IsZero(o.retryAt) && CanonicalErrorCode(o.errorCode)
       case GivenUp => IsZero(o.retryAt) && CanonicalErrorCode(o.errorCode)
       case Running => false
  }

  /** `outcomeStatus` */
  function TargetStatus(s: GenerationStatus): Status {
    match s
    case Idle => Completed
    case ToRetry => RetryPending
    case GivenUp => Failed
    case Running => Queued
  }

  function NullablePositive(n: int): Option<int> {
    if n < 1 then None else Some(n)
  }

  function NullableString(s: id): Option<id> {
    if s == [] then None else Some(s)
  }

  /** A NULL column is read as zero or as the empty string. */
  function OrZero(n: Option<int>): int {
    match n case None => 0 case Some(k) => k
  }

  function OrEmpty(s: Option<id>): id {
    match s case None => [] case Some(t) => t
  }

  /** `outcomeMatches` */
  predicate OutcomeMatches(row: Row, o: Outcome) {
    && OrZero(row.runtimeEpoch) == o.runtimeEpoch && row.inserted == o.inserted
    && OrEmpty(row.watermark) == o.watermark && row.errorCode == o.errorCode
    && (o.status == ToRetry ==> row.availableAt == o.retryAt)
  }

  predicate Names(row: Row, o: Outcome) {
    OrEmpty(row.claimId) == o.claimId && row.createdEpoch == o.createdEpoch
  }

  /** The row is exactly the recorded outcome. */
  predicate Holds(row: Row, o: Outcome) {
    Names(row, o) && row.status == TargetStatus(o.status) && OutcomeMatches(row, o)
  }

  /** What the read of a completion decides. */
  datatype Verdict = Accepted | Refused | Proceed

  function Judge(row: Row, o: Outcome): Verdict {
    if !Names(row, o) then Refused
    else if row.status == TargetStatus(o.status) then (if OutcomeMatches(row, o) then Accepted else Refused)
    else if row.status != Claimed then Refused
    else Proceed
  }

  function RecordedRow(row: Row, o: Outcome, availableAt: instant): Row {
    Row(row.jobId, row.claimId, row.createdEpoch, TargetStatus(o.status), row.attempt, availableAt, None,
        NullablePositive(o.runtimeEpoch), o.inserted, NullableString(o.watermark), o.errorCode, row.revision + 1)
  }

  /** The WHERE clause of the compare-and-swap. */
  predicate CanRecord(t: Table, o: Outcome, seen: Row) {
    o.workspaceId in t && t[o.workspaceId].claimId == Some(o.claimId) && t[o.workspaceId].createdEpoch == o.createdEpoch
    && t[o.workspaceId].status == Claimed && t[o.workspaceId].revision == seen.revision
  }

  /** The compare-and-swap of `CompleteGenerationClaim`, against the row read before. */
  function Record(t: Table, o: Outcome, seen: Row): Table {
    if CanRecord(t, o, seen) then
      var at := if o.status == ToRetry then o.retryAt else seen.availableAt;
      t[o.workspaceId := RecordedRow(t[o.workspaceId], o, at)]
    else t
  }

  /** A completion nothing interferes with. */
  function Complete(t: Table, raw: Outcome): (Table, Err) {
    var o := NormalOutcome(raw);
    if !ValidOutcome(o) then (t, InvalidClaim)
    else if o.workspaceId !in t then (t, JobNotFound)
    else
      var row := t[o.workspaceId];
      match Judge(row, o)
      case Accepted => (t, Ok)
      case Refused => (t, ClaimConflict)
      case Proceed => (Record(t, o, row), if CanRecord(t, o, row) then Ok else ClaimConflict)
  }

  // ---------------------------------------------------------------- what is refused

  /** A stored time is the last whole microsecond; so the zero time is the first microsecond of year 1. */
  lemma WholeMicroseconds(t: instant)
    ensures NormalizeTime(t) <= t < NormalizeTime(t) + 1000 && NormalizeTime(t) % 1000 == 0
    ensures IsZero(NormalizeTime(t)) <==> 0 <= t < 1000
  {
  }

  /** A request is refused exactly for a blank identifier, an epoch below one or the zero time. */
  lemma RequestRefusedIff(request: EnqueueRequest)
    ensures !ValidRequest(NormalRequest(request)) <==>
      || TrimSpace(request.jobId) == [] || TrimSpace(request.workspaceId) == []
      || request.createdEpoch < 1 || 0 <= request.availableAt < 1000
  {
    hide NormalizeTime, TrimSpace;
    WholeMicroseconds(request.availableAt);
  }

  predicate KnownError(code: Option<ErrorCode>) {
    code == Some(InvalidRuntime) || code == Some(RuntimeResolveFailed) || code == Some(FencedWriteFailed)
  }

  /** An outcome is refused exactly for a blank identifier, a number below what it counts, or a state that
      does not go with its runtime epoch, its time and its error. */
  lemma OutcomeRefusedIff(raw: Outcome)
    ensures !ValidOutcome(NormalOutcome(raw)) <==>
      || TrimSpace(raw.claimId) == [] || TrimSpace(raw.workspaceId) == []
      || raw.createdEpoch < 1 || raw.runtimeEpoch < 0 || raw.inserted < 0 || raw.status == Running
      || (raw.status == Idle && (raw.runtimeEpoch < 1 || !(0 <= raw.retryAt < 1000) || raw.errorCode.Some?))
      || (raw.status == ToRetry && (0 <= raw.retryAt < 1000 || !KnownError(raw.errorCode)))
      || (raw.status == GivenUp && (!(0 <= raw.retryAt < 1000) || !KnownError(raw.errorCode)))
  {
    hide NormalizeTime, TrimSpace;
    WholeMicroseconds(raw.retryAt);
  }

  // ---------------------------------------------------------------- the repository

  /** `defaultLeaseDuration`: a minute. */
  const DEFAULT_LEASE: int := 60_000_000_000

  class Repository {
    var jobs: Table
    const lease: int

    /** `New`; `WithLeaseDuration` makes no repository for a lease that is not positive. */
    constructor (lease: int := DEFAULT_LEASE)
      requires lease > 0
      ensures this.lease == lease && jobs == map[]
    {
      this.lease := lease;
      jobs := map[];
    }

    method Get(workspaceId: id) returns (job: Option<Row>, err: Err)
      ensures var ws := TrimSpace(workspaceId);
        if ws == [] then job == None && err == InvalidJob
        else if ws in jobs then job == Some(jobs[ws]) && err == Ok
        else job == None && err == JobNotFound
    {
      var ws := TrimSpace(workspaceId);
      if ws == [] {
        return None, InvalidJob;
      }
      if ws !in jobs {
        return None, JobNotFound;
      }
      return Some(jobs[ws]), Ok;
    }

    /** A job is queued once for a workspace; repeating the request while it waits changes nothing. */
    method Enqueue(request: EnqueueRequest) returns (err: Err)
      modifies this`jobs
      ensures var r := NormalRequest(request);
        if !ValidRequest(r) then err == InvalidJob && jobs == old(jobs)
        else if CanInsert(old(jobs), r) then err == Ok && jobs == old(jobs)[r.workspaceId := NewRow(r)]
        else jobs == old(jobs) && (err == Ok || err == JobConflict)
             && (err == Ok <==> r.workspaceId in jobs && var row := jobs[r.workspaceId];
                   row.jobId == r.jobId && row.createdEpoch == r.createdEpoch && row.status == Queued
                   && row.availableAt == r.availableAt)
    {
      var r := NormalRequest(request);
      if !ValidRequest(r) {
        return InvalidJob;
      }
      var inserted := CanInsert(jobs, r);
      jobs := InsertJob(jobs, r);
      if inserted {
        return Ok;
      }
      TrimIdempotent(request.workspaceId, Space());
      var existing, readErr := Get(r.workspaceId);
      if existing.None? {
        return if readErr == JobNotFound then JobConflict else readErr;
      }
      var row := existing.value;
      if row.jobId == r.jobId && row.createdEpoch == r.createdEpoch && row.status == Queued
         && row.availableAt == r.availableAt {
        return Ok;
      }
      return JobConflict;
    }

    /** A new cycle starts when there is none or the last one ended; pending work is left alone. */
    method EnsureScheduled(request: EnqueueRequest) returns (changed: bool, err: Err)
      modifies this`jobs
      ensures var r := NormalRequest(request);
        if !ValidRequest(r) then !changed && err == InvalidJob && jobs == old(jobs)
        else if r.workspaceId in old(jobs) && !Terminal(old(jobs)[r.workspaceId]) then
          !changed && err == Ok && jobs == old(jobs)
        else if JobIdTaken(old(jobs), r.jobId, r.workspaceId) then
          !changed && err == UniqueViolation && jobs == old(jobs)
        else changed && err == Ok && r.workspaceId in jobs && jobs == old(jobs)[r.workspaceId := jobs[r.workspaceId]]
             && FreshCycle(jobs[r.workspaceId], r)
             && jobs[r.workspaceId].revision
                == if r.workspaceId in old(jobs) then old(jobs)[r.workspaceId].revision + 1 else 1
    {
      var r := NormalRequest(request);
      if !ValidRequest(r) {
        return false, InvalidJob;
      }
      match UpsertJob(jobs, r) {
        case None => return false, UniqueViolation;
        case Some(written) =>
          jobs := written.0;
          return written.1 == 1, Ok;
      }
    }

    /** A new cycle, unless a live lease is in the way. */
    method Reschedule(workspaceId: id, createdEpoch: int, availableAt: instant) returns (err: Err)
      modifies this`jobs
      ensures var ws, at := TrimSpace(workspaceId), NormalizeTime(availableAt);
        if ws == [] || createdEpoch < 1 || IsZero(at) then err == InvalidJob && jobs == old(jobs)
        else if ws !in old(jobs) then err == JobNotFound && jobs == old(jobs)
        else if old(jobs)[ws].status == Claimed then err == ClaimConflict && jobs == old(jobs)
        else err == Ok && jobs == old(jobs)[ws := Requeued(old(jobs)[ws], createdEpoch, at)]
    {
      var ws, at := TrimSpace(workspaceId), NormalizeTime(availableAt);
      if ws == [] || createdEpoch < 1 || IsZero(at) {
        return InvalidJob;
      }
      var count := ws in jobs && jobs[ws].status != Claimed;
      jobs := RescheduleJob(jobs, ws, createdEpoch, at);
      if count {
        return Ok;
      }
      TrimIdempotent(workspaceId, Space());
      var job, readErr := Get(ws);
      if job.None? {
        return readErr;
      }
      return if job.value.status == Claimed then ClaimConflict else JobConflict;
    }

    /** `claimOne` */
    method ClaimNext(claimId: id, at: instant, until: instant) returns (claim: Option<Claim>)
      modifies this`jobs
      ensures var (t, ws) := ClaimOne(old(jobs), claimId, at, until);
        jobs == t && claim == match ws case None => None
                                       case Some(w) => Some(Claim(claimId, w, old(jobs)[w].createdEpoch))
    {
      if !AnyEligible(jobs, at) {
        return None;
      }
      FirstExists(jobs, at);
      var ws :| ws in jobs && IsFirst(jobs, at, ws);
      FirstIsUnique(jobs, at, ws, First(jobs, at).value);
      var row := jobs[ws];
      jobs := jobs[ws := ClaimedRow(row, claimId, until)];
      return Some(Claim(claimId, ws, row.createdEpoch));
    }

    /** `ClaimGenerationWorkspaces`; `ids` are the identifiers `uuid.NewString` will return. */
    method ClaimGenerationWorkspaces(limit: int, claimedAt: instant, ids: seq<id>)
      returns (claims: seq<Claim>, err: Err)
      requires |ids| >= limit
      modifies this`jobs
      ensures var at := NormalizeTime(claimedAt);
        if limit < 1 || IsZero(at) then claims == [] && err == InvalidClaim && jobs == old(jobs)
        else err == Ok && (jobs, claims) == ClaimAll(old(jobs), ids[..limit], at, NormalizeTime(at + lease))
    {
      var at := NormalizeTime(claimedAt);
      if limit < 1 || IsZero(at) {
        return [], InvalidClaim;
      }
      hide ClaimAll, ClaimOne, First, IsFirst, Continued;
      claims, err := [], Ok;
      ghost var until := NormalizeTime(at + lease);
      ghost var goal := ClaimAll(jobs, ids[..limit], at, until);
      assert ids[0..limit] == ids[..limit];
      ContinuedLaws([], [], goal);
      while |claims| < limit
        invariant |claims| <= limit
        invariant goal == Continued(claims, ClaimAll(jobs, ids[|claims|..limit], at, until))
      {
        var claimId := ids[|claims|];
        var leaseUntil := NormalizeTime(at + lease);
        assert ids[|claims|..limit][0] == claimId && ids[|claims|..limit][1..] == ids[|claims| + 1..limit];
        ClaimAllStep(jobs, ids[|claims|..limit], at, until);
        var claim := ClaimNext(claimId, at, leaseUntil);
        if claim.None? {
          ContinuedLaws(claims, [], (jobs, []));
          return;
        }
        ContinuedLaws(claims, [claim.value], ClaimAll(jobs, ids[|claims| + 1..limit], at, until));
        claims := claims + [claim.value];
      }
      assert ids[|claims|..limit] == [];
      ClaimAllStep(jobs, [], at, until);
      ContinuedLaws(claims, [], (jobs, []));
    }

    method CompleteGenerationClaim(outcome: Outcome) returns (err: Err)
      modifies this`jobs
      ensures (jobs, err) == Complete(old(jobs), outcome)
    {
      var o := NormalOutcome(outcome);
      if !ValidOutcome(o) {
        return InvalidClaim;
      }
      TrimIdempotent(outcome.workspaceId, Space());
      var current, readErr := Get(o.workspaceId);
      if current.None? {
        return readErr;
      }
      match Judge(current.value, o) {
        case Accepted => return Ok;
        case Refused => return ClaimConflict;
        case Proceed =>
      }
      var count := CanRecord(jobs, o, current.value);
      jobs := Record(jobs, o, current.value);
      if count {
        return Ok;
      }
      var latest, latestErr := Get(o.workspaceId);
      if latest.Some? && Holds(latest.value, o) {
        return Ok;
      }
      return ClaimConflict;
    }
  }
}
