/** Concurrent use of the generation queue of backend/internal/generationclaims/repository.go: every SQL
    statement is one step, and the read and the compare-and-swap of a completion are different steps. */
module GenerationRuns {
  import opened Wrappers
  import opened Trimming
  import opened GenerationClaims

  /** A `CompleteGenerationClaim` in progress, with its outcome as normalised. */
  datatype Call =
    | Started(o: Outcome)
    | HasRead(o: Outcome, seen: Row)
    | LostRace(o: Outcome)
    | Done(o: Outcome, err: Err)

  /** The table and the calls in progress. The other fields are history: the identifiers drawn, the
      claims of each workspace in its current cycle, and the outcome recorded for each claim. */
  datatype State = State(
    jobs: Table,
    calls: map<nat, Call>,
    issued: set<id>,
    cycle: map<id, seq<id>>,
    recorded: map<id, Outcome>)

  const INITIAL: State := State(map[], map[], {}, map[], map[])

  /** A time as `normalizeTime` leaves it. */
  predicate Whole(t: instant) {
    NormalizeTime(t) == t
  }

  datatype Op =
    | EnqueueOp(request: EnqueueRequest)
    | EnsureOp(request: EnqueueRequest)
    | RescheduleOp(ws: id, epoch: int, at: instant)
    | ClaimOp(claimId: id, at: instant, until: instant)
    | StartOp(call: nat, outcome: Outcome)
    | ReadOp(call: nat)
    | SwapOp(call: nat)
    | RereadOp(call: nat)

  /** `uuid.NewString` never returns a value twice, a lease ends at a whole microsecond, and a call is
      started once. */
  predicate Enabled(s: State, op: Op) {
    match op
    case ClaimOp(claimId, at, until) => claimId !in s.issued && claimId != [] && Whole(until)
    case StartOp(call, outcome) => call !in s.calls
    case _ => true
  }

  function NewCycle(s: State, t: Table, ws: id): State {
    if t == s.jobs then s else s.(jobs := t, cycle := s.cycle[ws := []])
  }

  function StepEnqueue(s: State, request: EnqueueRequest): State {
    var r := NormalRequest(request);
    if ValidRequest(r) then NewCycle(s, InsertJob(s.jobs, r), r.workspaceId) else s
  }

  function StepEnsure(s: State, request: EnqueueRequest): State {
    var r := NormalRequest(request);
    if ValidRequest(r) && UpsertJob(s.jobs, r).Some? then NewCycle(s, UpsertJob(s.jobs, r).value.0, r.workspaceId)
    else s
  }

  function StepReschedule(s: State, workspaceId: id, epoch: int, availableAt: instant): State {
    var ws, at := TrimSpace(workspaceId), NormalizeTime(availableAt);
    if ws == [] || epoch < 1 || IsZero(at) then s else NewCycle(s, RescheduleJob(s.jobs, ws, epoch, at), ws)
  }

  ghost function StepClaim(s: State, claimId: id, at: instant, until: instant): State {
    var (t, ws) := ClaimOne(s.jobs, claimId, at, until);
    match ws
    case None => s.(issued := s.issued + {claimId})
    case Some(w) =>
      s.(jobs := t, issued := s.issued + {claimId},
         cycle := s.cycle[w := (if w in s.cycle then s.cycle[w] else []) + [claimId]])
  }

  function StepStart(s: State, call: nat, outcome: Outcome): State {
    var o := NormalOutcome(outcome);
    s.(calls := s.calls[call := if ValidOutcome(o) then Started(o) else Done(o, InvalidClaim)])
  }

  function StepRead(s: State, call: nat): State {
    if call in s.calls && s.calls[call].Started? then
      var o := s.calls[call].o;
      var next :=
        if o.workspaceId !in s.jobs then Done(o, JobNotFound)
        else match Judge(s.jobs[o.workspaceId], o)
             case Accepted => Done(o, Ok)
             case Refused => Done(o, ClaimConflict)
             case Proceed => HasRead(o, s.jobs[o.workspaceId]);
      s.(calls := s.calls[call := next])
    else s
  }

  function StepSwap(s: State, call: nat): State {
    if call in s.calls && s.calls[call].HasRead? then
      var o, seen := s.calls[call].o, s.calls[call].seen;
      if CanRecord(s.jobs, o, seen) then
        s.(jobs := Record(s.jobs, o, seen), calls := s.calls[call := Done(o, Ok)],
           recorded := s.recorded[o.claimId := o])
      else s.(calls := s.calls[call := LostRace(o)])
    else s
  }

  function StepReread(s: State, call: nat): State {
    if call in s.calls && s.calls[call].LostRace? then
      var o := s.calls[call].o;
      var ok := o.workspaceId in s.jobs && Holds(s.jobs[o.workspaceId], o);
      s.(calls := s.calls[call := Done(o, if ok then Ok else ClaimConflict)])
    else s
  }

  ghost function Step(s: State, op: Op): State {
    match op
    case EnqueueOp(r) => StepEnqueue(s, r)
    case EnsureOp(r) => StepEnsure(s, r)
    case RescheduleOp(ws, epoch, at) => StepReschedule(s, ws, epoch, at)
    case ClaimOp(claimId, at, until) => StepClaim(s, claimId, at, until)
    case StartOp(call, outcome) => StepStart(s, call, outcome)
    case ReadOp(call) => StepRead(s, call)
    case SwapOp(call) => StepSwap(s, call)
    case RereadOp(call) => StepReread(s, call)
  }

  /** A run: every operation is enabled when its turn comes. */
  ghost predicate IsRun(s: State, ops: seq<Op>)
    decreases |ops|
  {
    |ops| == 0 || (Enabled(s, ops[0]) && IsRun(Step(s, ops[0]), ops[1..]))
  }

  ghost function Run(s: State, ops: seq<Op>): State
    decreases |ops|
  {
    if |ops| == 0 then s else Run(Step(s, ops[0]), ops[1..])
  }

  // ---------------------------------------------------------------- the invariant

  predicate Last(cycle: seq<id>, claimId: Option<id>) {
    claimId == if |cycle| == 0 then None else Some(cycle[|cycle| - 1])
  }

  /** A row agrees with the claims of its cycle: `attempt` counts them, `claim_id` is the last one. */
  predicate RowOk(s: State, ws: id)
    requires ws in s.jobs
  {
    var row := s.jobs[ws];
    && RowValid(row) && ws in s.cycle
    && row.attempt == |s.cycle[ws]| && Last(s.cycle[ws], row.claimId)
    && (row.status == Queued <==> s.cycle[ws] == [])
    && (row.claimId.Some? ==> row.claimId.value in s.issued && row.claimId.value != [])
    && (row.status == Claimed ==> row.claimId.value !in s.recorded)
    && (row.status != Queued && row.status != Claimed ==>
          row.claimId.value in s.recorded && s.recorded[row.claimId.value].workspaceId == ws
          && Holds(row, s.recorded[row.claimId.value]))
  }

  predicate CallOk(s: State, call: Call) {
    && (call.Done? || ValidOutcome(call.o))
    && (call.Done? && call.err == Ok ==> call.o.claimId in s.recorded && s.recorded[call.o.claimId] == call.o)
  }

  predicate JobIdsUnique(t: Table) {
    forall u, w :: u in t && w in t && t[u].jobId == t[w].jobId ==> u == w
  }

  predicate ClaimIdsUnique(t: Table) {
    forall u, w :: u in t && w in t && t[u].claimId.Some? && t[u].claimId == t[w].claimId ==> u == w
  }

  predicate Inv(s: State) {
    && (forall ws :: ws in s.jobs ==> RowOk(s, ws))
    && (forall k :: k in s.calls ==> CallOk(s, s.calls[k]))
    && (forall c :: c in s.recorded ==> c in s.issued && ValidOutcome(s.recorded[c]))
    && JobIdsUnique(s.jobs) && ClaimIdsUnique(s.jobs)
  }

  // ---------------------------------------------------------------- one step

  /** A row of one workspace is replaced, and its new claim identifier is its old one, none, or fresh. */
  lemma ReplacedRow(s: State, s': State, ws: id, row: Row)
    requires Inv(s) && s'.jobs == s.jobs[ws := row]
    requires !JobIdTaken(s.jobs, row.jobId, ws)
    requires row.claimId.Some? ==> row.claimId.value !in s.issued || (ws in s.jobs && s.jobs[ws].claimId == row.claimId)
    ensures JobIdsUnique(s'.jobs) && ClaimIdsUnique(s'.jobs)
  {
    hide RowValid, Holds;
    forall u | u in s.jobs
      ensures s.jobs[u].claimId.Some? ==> s.jobs[u].claimId.value in s.issued
    {
      assert RowOk(s, u);
    }
  }

  predicate SameAt(m: map<id, Outcome>, n: map<id, Outcome>, c: id) {
    (c in m <==> c in n) && (c in m ==> m[c] == n[c])
  }

  /** Rows whose history did not change stay right. */
  lemma OtherRow(s: State, s': State, ws: id)
    requires ws in s.jobs && ws in s'.jobs && s'.jobs[ws] == s.jobs[ws] && RowOk(s, ws)
    requires ws in s'.cycle && s'.cycle[ws] == s.cycle[ws] && s.issued <= s'.issued
    requires s.jobs[ws].claimId.Some? ==> SameAt(s.recorded, s'.recorded, s.jobs[ws].claimId.value)
    ensures RowOk(s', ws)
  {
    hide RowValid, Holds;
  }

  /** A started cycle keeps the invariant. */
  lemma NewCycleInv(s: State, ws: id, row: Row)
    requires Inv(s) && RowValid(row) && row.status == Queued
    requires !JobIdTaken(s.jobs, row.jobId, ws)
    ensures Inv(NewCycle(s, s.jobs[ws := row], ws))
  {
    hide RowValid, Holds;
    var s' := NewCycle(s, s.jobs[ws := row], ws);
    if s' != s {
      assert row.attempt == 0 && row.claimId.None? by { QueuedRow(row); }
      forall u | u in s'.jobs
        ensures RowOk(s', u)
      {
        if u != ws {
          OtherRow(s, s', u);
        }
      }
      ReplacedRow(s, s', ws, row);
    }
  }

  lemma QueuedRow(row: Row)
    requires RowValid(row) && row.status == Queued
    ensures row.attempt == 0 && row.claimId.None?
  {
  }

  lemma RequeuedValid(row: Row, epoch: int, at: instant)
    requires RowValid(row) && epoch >= 1
    ensures RowValid(Requeued(row, epoch, at)) && Requeued(row, epoch, at).status == Queued
  {
  }

  lemma NewRowValid(r: EnqueueRequest)
    requires ValidRequest(r)
    ensures RowValid(NewRow(r)) && NewRow(r).status == Queued
  {
  }

  lemma EnqueueInv(s: State, request: EnqueueRequest)
    requires Inv(s)
    ensures Inv(StepEnqueue(s, request))
  {
    hide RowValid, Inv, NewRow;
    var r := NormalRequest(request);
    if ValidRequest(r) && CanInsert(s.jobs, r) {
      NewRowValid(r);
      assert NewRow(r).jobId == r.jobId by { NewRowJob(r); }
      NewCycleInv(s, r.workspaceId, NewRow(r));
    }
  }

  lemma NewRowJob(r: EnqueueRequest)
    ensures NewRow(r).jobId == r.jobId
  {
  }

  lemma EnsureInv(s: State, request: EnqueueRequest)
    requires Inv(s)
    ensures Inv(StepEnsure(s, request))
  {
    hide RowValid, Inv;
    var r := NormalRequest(request);
    var ws := r.workspaceId;
    if ValidRequest(r) && UpsertJob(s.jobs, r).Some? {
      if ws !in s.jobs {
        NewRowValid(r);
        NewCycleInv(s, ws, NewRow(r));
      } else if Terminal(s.jobs[ws]) {
        RowOfInv(s, ws);
        var row := Requeued(s.jobs[ws], r.createdEpoch, r.availableAt);
        RequeuedValid(s.jobs[ws], r.createdEpoch, r.availableAt);
        assert RowValid(row.(jobId := r.jobId)) by { JobIdIsFree(row, r.jobId); }
        NewCycleInv(s, ws, row.(jobId := r.jobId));
      }
    }
  }

  lemma JobIdIsFree(row: Row, jobId: id)
    ensures RowValid(row.(jobId := jobId)) == RowValid(row)
  {
  }

  lemma RowOfInv(s: State, ws: id)
    requires Inv(s) && ws in s.jobs
    ensures RowOk(s, ws) && RowValid(s.jobs[ws]) && !JobIdTaken(s.jobs, s.jobs[ws].jobId, ws)
  {
    hide RowValid, Holds;
    assert RowOk(s, ws);
  }

  lemma RescheduleInv(s: State, workspaceId: id, epoch: int, availableAt: instant)
    requires Inv(s)
    ensures Inv(StepReschedule(s, workspaceId, epoch, availableAt))
  {
    hide RowValid, Inv, RowOk;
    var ws, at := TrimSpace(workspaceId), NormalizeTime(availableAt);
    if ws in s.jobs && epoch >= 1 {
      RowOfInv(s, ws);
      RequeuedValid(s.jobs[ws], epoch, at);
      NewCycleInv(s, ws, Requeued(s.jobs[ws], epoch, at));
    }
  }

  lemma ClaimInv(s: State, claimId: id, at: instant, until: instant)
    requires Inv(s) && claimId !in s.issued && claimId != []
    ensures Inv(StepClaim(s, claimId, at, until))
  {
    hide Inv, RowValid, IsFirst, Eligible;
    IssuedInv(s, claimId);
    match First(s.jobs, at)
    case None =>
    case Some(ws) =>
      FirstInTable(s.jobs, at, ws);
      ClaimedInv(s, ws, claimId, until);
  }

  lemma IssuedInv(s: State, claimId: id)
    requires Inv(s)
    ensures Inv(s.(issued := s.issued + {claimId}))
  {
    hide RowValid, Holds;
    var s' := s.(issued := s.issued + {claimId});
    forall u | u in s'.jobs
      ensures RowOk(s', u)
    {
      OtherRow(s, s', u);
    }
  }

  lemma ClaimedInv(s: State, ws: id, claimId: id, until: instant)
    requires Inv(s) && ws in s.jobs && claimId !in s.issued && claimId != []
    ensures ws in s.cycle
    ensures Inv(s.(jobs := s.jobs[ws := ClaimedRow(s.jobs[ws], claimId, until)], issued := s.issued + {claimId},
                   cycle := s.cycle[ws := s.cycle[ws] + [claimId]]))
  {
    hide RowValid, Holds;
    RowOfInv(s, ws);
    var s' := s.(jobs := s.jobs[ws := ClaimedRow(s.jobs[ws], claimId, until)], issued := s.issued + {claimId},
                 cycle := s.cycle[ws := s.cycle[ws] + [claimId]]);
    ClaimedRowValid(s.jobs[ws], claimId, until);
    forall u | u in s'.jobs
      ensures RowOk(s', u)
    {
      if u != ws {
        OtherRow(s, s', u);
      }
    }
    ReplacedRow(s, s', ws, ClaimedRow(s.jobs[ws], claimId, until));
  }

  lemma FirstInTable(t: Table, at: instant, ws: id)
    requires IsFirst(t, at, ws)
    ensures ws in t && Eligible(t[ws], at)
  {
  }

  lemma ClaimedRowValid(row: Row, claimId: id, until: instant)
    requires RowValid(row)
    ensures RowValid(ClaimedRow(row, claimId, until))
  {
  }

  /** The row holds at most one outcome. */
  lemma HoldsOne(row: Row, o: Outcome, p: Outcome)
    requires ValidOutcome(o) && ValidOutcome(p) && Holds(row, o) && Holds(row, p)
    requires o.workspaceId == p.workspaceId
    ensures o == p
  {
  }

  /** A row that holds a valid outcome is the one recorded for its claim. */
  lemma HeldIsRecorded(s: State, o: Outcome)
    requires Inv(s) && ValidOutcome(o) && o.workspaceId in s.jobs && Holds(s.jobs[o.workspaceId], o)
    ensures o.claimId in s.recorded && s.recorded[o.claimId] == o
  {
    hide RowValid;
    var row := s.jobs[o.workspaceId];
    assert RowOk(s, o.workspaceId);
    assert row.status != Queued && row.status != Claimed && row.claimId == Some(o.claimId);
    HoldsOne(row, o, s.recorded[o.claimId]);
  }

  lemma CallInv(s: State, call: nat, next: Call)
    requires Inv(s) && CallOk(s, next)
    ensures Inv(s.(calls := s.calls[call := next]))
  {
    hide RowValid, Holds;
    var s' := s.(calls := s.calls[call := next]);
    forall u | u in s'.jobs
      ensures RowOk(s', u)
    {
      OtherRow(s, s', u);
    }
  }

  lemma CompletionInv(s: State, op: Op)
    requires Inv(s) && Enabled(s, op) && (op.StartOp? || op.ReadOp? || op.RereadOp?)
    ensures Inv(Step(s, op))
  {
    hide RowValid, Inv, Holds, ValidOutcome;
    var s' := Step(s, op);
    if s' != s {
      var next := s'.calls[op.call];
      if op.call in s.calls {
        assert CallOk(s, s.calls[op.call]) by { CallOfInv(s, op.call); }
      }
      var o := next.o;
      if next.Done? && next.err == Ok {
        assert Holds(s.jobs[o.workspaceId], o) by { AcceptedHolds(s.jobs[o.workspaceId], o); }
        HeldIsRecorded(s, o);
      }
      CallInv(s, op.call, next);
    }
  }

  lemma CallOfInv(s: State, call: nat)
    requires Inv(s) && call in s.calls
    ensures CallOk(s, s.calls[call])
  {
  }

  lemma AcceptedHolds(row: Row, o: Outcome)
    ensures Judge(row, o) == Accepted <==> Holds(row, o)
  {
  }

  /** The row written by the compare-and-swap satisfies the schema and holds the outcome. */
  lemma RecordedRowHolds(row: Row, o: Outcome, seen: Row)
    requires ValidOutcome(o) && row.claimId == Some(o.claimId) && row.createdEpoch == o.createdEpoch
    ensures var at := if o.status == ToRetry then o.retryAt else seen.availableAt;
      Holds(RecordedRow(row, o, at), o) && (RowValid(row) ==> RowValid(RecordedRow(row, o, at)))
  {
  }

  lemma SwapInv(s: State, call: nat)
    requires Inv(s)
    ensures Inv(StepSwap(s, call))
  {
    if call in s.calls && s.calls[call].HasRead? {
      var o, seen := s.calls[call].o, s.calls[call].seen;
      CallOfInv(s, call);
      if CanRecord(s.jobs, o, seen) {
        RecordInv(s, call, o, seen);
      } else {
        CallInv(s, call, LostRace(o));
      }
    }
  }

  lemma RecordInv(s: State, call: nat, o: Outcome, seen: Row)
    requires Inv(s) && ValidOutcome(o) && CanRecord(s.jobs, o, seen)
    ensures Inv(s.(jobs := Record(s.jobs, o, seen), calls := s.calls[call := Done(o, Ok)],
                   recorded := s.recorded[o.claimId := o]))
  {
    hide RowValid, Holds, ValidOutcome;
    var s' := s.(jobs := Record(s.jobs, o, seen), calls := s.calls[call := Done(o, Ok)],
                 recorded := s.recorded[o.claimId := o]);
    var ws := o.workspaceId;
    RowOfInv(s, ws);
    RecordedRowHolds(s.jobs[ws], o, seen);
    assert o.claimId !in s.recorded;
    forall u | u in s'.jobs
      ensures RowOk(s', u)
    {
      if u != ws {
        assert s.jobs[u].claimId != Some(o.claimId);
        OtherRow(s, s', u);
      } else {
        SwappedRow(s.jobs[ws], s'.jobs[ws], o);
      }
    }
    forall k | k in s'.calls
      ensures CallOk(s', s'.calls[k])
    {
      if k != call {
        CallOfInv(s, k);
      }
    }
    ReplacedRow(s, s', ws, s'.jobs[ws]);
  }

  lemma SwappedRow(row: Row, row': Row, o: Outcome)
    requires Holds(row', o) && ValidOutcome(o)
    ensures row'.status != Queued && row'.status != Claimed
  {
  }

  /** Every step keeps the invariant. */
  lemma StepInv(s: State, op: Op)
    requires Inv(s) && Enabled(s, op)
    ensures Inv(Step(s, op))
  {
    hide Inv;
    match op
    case EnqueueOp(r) => EnqueueInv(s, r);
    case EnsureOp(r) => EnsureInv(s, r);
    case RescheduleOp(ws, epoch, at) => RescheduleInv(s, ws, epoch, at);
    case ClaimOp(claimId, at, until) => ClaimInv(s, claimId, at, until);
    case SwapOp(call) => SwapInv(s, call);
    case _ => CompletionInv(s, op);
  }

  lemma {:induction false} RunInv(s: State, ops: seq<Op>)
    requires Inv(s) && IsRun(s, ops)
    ensures Inv(Run(s, ops))
    decreases |ops|
  {
    hide Inv;
    if |ops| > 0 {
      StepInv(s, ops[0]);
      RunInv(Step(s, ops[0]), ops[1..]);
    }
  }

  // ---------------------------------------------------------------- acknowledgement

  /** In every reachable state the row of a workspace satisfies the schema's CHECK clauses, `attempt`
      is the number of claims in its cycle, and the keys are unique. */
  lemma ReachableRows(ops: seq<Op>, ws: id)
    requires IsRun(INITIAL, ops) && ws in Run(INITIAL, ops).jobs
    ensures var s := Run(INITIAL, ops);
      && RowValid(s.jobs[ws]) && ws in s.cycle && s.jobs[ws].attempt == |s.cycle[ws]|
      && Last(s.cycle[ws], s.jobs[ws].claimId) && (s.jobs[ws].status == Queued <==> s.cycle[ws] == [])
      && JobIdsUnique(s.jobs) && ClaimIdsUnique(s.jobs)
  {
    RunInv(INITIAL, ops);
    RowOfInv(Run(INITIAL, ops), ws);
  }

  ghost predicate Succeeded(s: State, call: nat) {
    call in s.calls && s.calls[call].Done? && s.calls[call].err == Ok
  }

  /** All calls that succeed for one claim carry the same normalised outcome. */
  lemma SuccessesAgree(ops: seq<Op>, i: nat, j: nat)
    requires IsRun(INITIAL, ops)
    requires Succeeded(Run(INITIAL, ops), i) && Succeeded(Run(INITIAL, ops), j)
    requires var s := Run(INITIAL, ops); s.calls[i].o.claimId == s.calls[j].o.claimId
    ensures var s := Run(INITIAL, ops); s.calls[i].o == s.calls[j].o
  {
    var s := Run(INITIAL, ops);
    RunInv(INITIAL, ops);
    CallOfInv(s, i);
    CallOfInv(s, j);
  }

  /** At the step that makes a call succeed, the row holds exactly its outcome. */
  lemma SuccessMeansHeld(s: State, op: Op, call: nat)
    requires Inv(s) && Enabled(s, op)
    requires !Succeeded(s, call) && Succeeded(Step(s, op), call)
    ensures var s' := Step(s, op); var o := s'.calls[call].o;
      o.workspaceId in s'.jobs && Holds(s'.jobs[o.workspaceId], o)
  {
    hide RowValid, Holds, ValidOutcome, RowOk;
    match op
    case ReadOp(k) =>
      var o := s.calls[k].o;
      AcceptedHolds(s.jobs[o.workspaceId], o);
    case SwapOp(k) =>
      var o, seen := s.calls[k].o, s.calls[k].seen;
      CallOfInv(s, k);
      RecordedRowHolds(s.jobs[o.workspaceId], o, seen);
    case _ =>
  }

  /** What a reported outcome means for the job: a retry can be claimed again from the instant asked for
      and is not over; an idle or a given-up job is over and is never claimed again; and the row says for
      which claim, how much was inserted, and what went wrong. */
  ghost predicate Reported(row: Row, o: Outcome) {
    && (o.status == ToRetry ==> !Terminal(row) && forall at :: Eligible(row, at) <==> o.retryAt <= at)
    && (o.status == Idle || o.status == GivenUp ==> Terminal(row) && forall at :: !Eligible(row, at))
    && (row.status == Completed <==> o.status == Idle) && (row.status == Failed <==> o.status == GivenUp)
    && row.claimId == Some(o.claimId) && row.createdEpoch == o.createdEpoch
    && row.inserted == o.inserted && row.errorCode == o.errorCode
    && OrZero(row.runtimeEpoch) == o.runtimeEpoch && OrEmpty(row.watermark) == o.watermark
  }

  lemma HeldIsReported(row: Row, o: Outcome)
    requires ValidOutcome(o) && Holds(row, o)
    ensures Reported(row, o)
  {
    NamesClaim(row, o);
  }

  /** At the step that makes a call succeed, whatever runs between its two statements. */
  lemma SuccessIsReported(s: State, op: Op, call: nat)
    requires Inv(s) && Enabled(s, op)
    requires !Succeeded(s, call) && Succeeded(Step(s, op), call)
    ensures var s' := Step(s, op); var o := s'.calls[call].o;
      o.workspaceId in s'.jobs && Reported(s'.jobs[o.workspaceId], o)
  {
    hide RowValid, Holds, ValidOutcome, RowOk, Reported, Step, Inv;
    var s' := Step(s, op);
    SuccessMeansHeld(s, op, call);
    StepInv(s, op);
    SucceededIsValid(s', call);
    HeldIsReported(s'.jobs[s'.calls[call].o.workspaceId], s'.calls[call].o);
  }

  // ---------------------------------------------------------------- superseded claims

  /** The claim was made and no row carries it any more. */
  predicate Retired(s: State, c: id) {
    c in s.issued && forall ws :: ws in s.jobs ==> s.jobs[ws].claimId != Some(c)
  }

  /** What one step may do to a row. */
  lemma RowStep(s: State, op: Op, ws: id)
    requires ws in s.jobs
    ensures ws in Step(s, op).jobs
    ensures var row, row' := s.jobs[ws], Step(s, op).jobs[ws];
      || row' == row
      || (row'.revision == row.revision + 1 && row'.claimId == None && row.status != Claimed
          && (op.EnsureOp? || op.RescheduleOp?))
      || (row'.revision == row.revision + 1 && op.ClaimOp? && row'.claimId == Some(op.claimId)
          && Eligible(row, op.at))
      || (row'.revision == row.revision + 1 && op.SwapOp? && op.call in s.calls && s.calls[op.call].HasRead?
          && row'.claimId == row.claimId == Some(s.calls[op.call].o.claimId)
          && row.createdEpoch == s.calls[op.call].o.createdEpoch && row.status == Claimed)
  {
    hide Eligible, IsFirst, Holds, Judge, ValidOutcome;
    match op
    case ClaimOp(claimId, at, until) =>
      if First(s.jobs, at).Some? {
        FirstInTable(s.jobs, at, First(s.jobs, at).value);
      }
    case _ =>
  }

  /** Rows that a step adds have no claim and revision 1. */
  lemma AddedRow(s: State, op: Op, ws: id)
    requires ws !in s.jobs && ws in Step(s, op).jobs
    ensures Step(s, op).jobs[ws].claimId == None && Step(s, op).jobs[ws].revision == 1
  {
    hide Eligible, IsFirst, Holds, Judge, ValidOutcome;
    match op
    case ClaimOp(claimId, at, until) =>
      if First(s.jobs, at).Some? {
        FirstInTable(s.jobs, at, First(s.jobs, at).value);
      }
    case _ =>
  }

  /** Every write raises the revision of its row by one. */
  lemma WritesRaiseRevision(s: State, op: Op, ws: id)
    requires ws in Step(s, op).jobs
    ensures ws !in s.jobs ==> Step(s, op).jobs[ws].revision == 1
    ensures ws in s.jobs ==>
      (Step(s, op).jobs[ws] == s.jobs[ws] || Step(s, op).jobs[ws].revision == s.jobs[ws].revision + 1)
  {
    hide Step, Eligible;
    if ws in s.jobs {
      RowStep(s, op, ws);
    } else {
      AddedRow(s, op, ws);
    }
  }

  lemma IssuedGrows(s: State, op: Op)
    ensures s.issued <= Step(s, op).issued
  {
    hide Eligible, IsFirst, Holds, Judge, ValidOutcome;
  }

  lemma RetiredStep(s: State, op: Op, c: id)
    requires Inv(s) && Enabled(s, op) && Retired(s, c)
    ensures Retired(Step(s, op), c)
  {
    hide Step, Inv, Eligible;
    IssuedGrows(s, op);
    forall ws | ws in Step(s, op).jobs
      ensures Step(s, op).jobs[ws].claimId != Some(c)
    {
      if ws in s.jobs {
        RowStep(s, op, ws);
      } else {
        AddedRow(s, op, ws);
      }
    }
  }

  /** A retired claim stays retired: no row carries it again, and no call for it succeeds from then on. */
  lemma {:induction false} RetiredForever(s: State, ops: seq<Op>, c: id, call: nat)
    requires Inv(s) && IsRun(s, ops) && Retired(s, c)
    ensures Retired(Run(s, ops), c)
    ensures Succeeded(Run(s, ops), call) && !Succeeded(s, call) ==> Run(s, ops).calls[call].o.claimId != c
    decreases |ops|
  {
    hide Inv, Retired, Step;
    if |ops| > 0 {
      var s' := Step(s, ops[0]);
      RetiredStep(s, ops[0], c);
      StepInv(s, ops[0]);
      RetiredForever(s', ops[1..], c, call);
      if Succeeded(s', call) {
        SuccessStays(s', ops[1..], call);
        if !Succeeded(s, call) {
          SuccessMeansHeld(s, ops[0], call);
          SucceededIsValid(s', call);
          NotHeldWhenRetired(s', s'.calls[call].o, c);
        }
      }
    }
  }

  lemma NotHeldWhenRetired(s: State, o: Outcome, c: id)
    requires Retired(s, c) && o.workspaceId in s.jobs && Holds(s.jobs[o.workspaceId], o) && o.claimId != []
    ensures o.claimId != c
  {
  }

  lemma SucceededIsValid(s: State, call: nat)
    requires Inv(s) && Succeeded(s, call)
    ensures ValidOutcome(s.calls[call].o)
  {
    CallOfInv(s, call);
  }

  lemma {:induction false} SuccessStays(s: State, ops: seq<Op>, call: nat)
    requires IsRun(s, ops) && Succeeded(s, call)
    ensures Succeeded(Run(s, ops), call) && Run(s, ops).calls[call] == s.calls[call]
    decreases |ops|
  {
    if |ops| > 0 {
      SuccessStaysStep(s, ops[0], call);
      SuccessStays(Step(s, ops[0]), ops[1..], call);
    }
  }

  lemma SuccessStaysStep(s: State, op: Op, call: nat)
    requires Enabled(s, op) && Succeeded(s, call)
    ensures Succeeded(Step(s, op), call) && Step(s, op).calls[call] == s.calls[call]
  {
    hide Eligible, IsFirst, Holds, Judge, ValidOutcome;
  }

  /** A compare-and-swap for a retired claim writes nothing. */
  lemma RetiredWritesNothing(s: State, c: id, call: nat)
    requires Inv(s) && Retired(s, c) && call in s.calls && s.calls[call].o.claimId == c
    ensures StepSwap(s, call).jobs == s.jobs
  {
    hide RowValid, Holds, ValidOutcome;
  }

  // ---------------------------------------------------------------- leases

  ghost predicate Live(s: State, ws: id, c: id, until: instant) {
    && ws in s.jobs && s.jobs[ws].status == Claimed && s.jobs[ws].claimId == Some(c)
    && s.jobs[ws].leaseUntil == Some(until)
  }

  /** The calls in progress for a claim and its epoch. */
  predicate CallFor(call: Call, c: id, epoch: int) {
    call.o.claimId == c && call.o.createdEpoch == epoch
  }

  /** One step ends a live claim only by recording an outcome that names the claim and its epoch, or
      by claiming the job again at an instant not before the end of the lease. */
  lemma LiveClaimStep(s: State, op: Op, ws: id, c: id, until: instant)
    requires Live(s, ws, c, until)
    ensures ws in Step(s, op).jobs
    ensures Step(s, op).jobs[ws] == s.jobs[ws]
         || (op.SwapOp? && op.call in s.calls && CallFor(s.calls[op.call], c, s.jobs[ws].createdEpoch))
         || (op.ClaimOp? && op.at >= until)
  {
    hide Step;
    RowStep(s, op, ws);
  }

  /** Operations that start no completion of the claim and draw no claim at or after the end of its lease. */
  predicate Harmless(op: Op, c: id, epoch: int, until: instant) {
    && (op.ClaimOp? ==> op.at < until)
    && (op.StartOp? ==> !CallFor(Started(NormalOutcome(op.outcome)), c, epoch))
  }

  /** A live claim survives every run of such operations: scheduling never disturbs it. */
  lemma {:induction false} LiveClaimSurvives(s: State, ops: seq<Op>, ws: id, c: id, until: instant)
    requires Live(s, ws, c, until)
    requires forall i :: 0 <= i < |ops| ==> Harmless(ops[i], c, s.jobs[ws].createdEpoch, until)
    requires forall k :: k in s.calls ==> !CallFor(s.calls[k], c, s.jobs[ws].createdEpoch)
    ensures ws in Run(s, ops).jobs && Run(s, ops).jobs[ws] == s.jobs[ws]
    decreases |ops|
  {
    hide Step, CallFor;
    if |ops| > 0 {
      assert Harmless(ops[0], c, s.jobs[ws].createdEpoch, until);
      LiveClaimStep(s, ops[0], ws, c, until);
      forall k | k in Step(s, ops[0]).calls
        ensures !CallFor(Step(s, ops[0]).calls[k], c, s.jobs[ws].createdEpoch)
      {
        CallKeepsOutcome(s, ops[0], k, c, s.jobs[ws].createdEpoch);
      }
      LiveClaimSurvives(Step(s, ops[0]), ops[1..], ws, c, until);
    }
  }

  /** A call keeps the outcome it was started with. */
  lemma CallKeepsOutcome(s: State, op: Op, k: nat, c: id, epoch: int)
    requires k in Step(s, op).calls
    ensures k in s.calls || (op.StartOp? && op.call == k)
    ensures CallFor(Step(s, op).calls[k], c, epoch) ==
            if op.StartOp? && op.call == k then CallFor(Started(NormalOutcome(op.outcome)), c, epoch)
            else CallFor(s.calls[k], c, epoch)
  {
    hide Eligible, IsFirst, Holds, Judge, ValidOutcome;
  }

  // ---------------------------------------------------------------- repeated completions

  /** An uninterrupted completion succeeds exactly for the outcome the row holds already or for the
      live claim it names; it then leaves the row holding the outcome, touches no other row, and
      repeating it succeeds and changes nothing. */
  lemma CompletionIsIdempotent(t: Table, raw: Outcome)
    ensures var (t', err) := Complete(t, raw); var o := NormalOutcome(raw); var ws := o.workspaceId;
      && (err == Ok <==> ValidOutcome(o) && ws in t && Names(t[ws], o) && (Holds(t[ws], o) || t[ws].status == Claimed))
      && (err != Ok ==> t' == t)
      && (err == Ok ==> ws in t' && Holds(t'[ws], o) && t' == t[ws := t'[ws]] && Complete(t', raw) == (t', Ok))
  {
    hide Holds, ValidOutcome, RowValid, RecordedRow;
    var o := NormalOutcome(raw);
    var ws := o.workspaceId;
    if ValidOutcome(o) && ws in t {
      NamesClaim(t[ws], o);
      AcceptedHolds(t[ws], o);
      HeldIsNotClaimed(t[ws], o);
      if CanRecord(t, o, t[ws]) {
        RecordedRowHolds(t[ws], o, t[ws]);
      }
      AcceptedHolds(Complete(t, raw).0[ws], o);
      assert t == t[ws := t[ws]];
    }
  }

  /** A completion that succeeds undisturbed leaves the row so. */
  lemma CompletionMeans(t: Table, raw: Outcome)
    requires Complete(t, raw).1 == Ok
    ensures var o := NormalOutcome(raw);
      && o.workspaceId in Complete(t, raw).0
      && Reported(Complete(t, raw).0[o.workspaceId], o)
  {
    hide Reported, Holds, ValidOutcome, Complete;
    CompletionIsIdempotent(t, raw);
    HeldIsReported(Complete(t, raw).0[NormalOutcome(raw).workspaceId], NormalOutcome(raw));
  }

  lemma NamesClaim(row: Row, o: Outcome)
    requires ValidOutcome(o)
    ensures Names(row, o) <==> row.claimId == Some(o.claimId) && row.createdEpoch == o.createdEpoch
  {
  }

  lemma HeldIsNotClaimed(row: Row, o: Outcome)
    requires ValidOutcome(o)
    ensures Holds(row, o) ==> Names(row, o) && row.status != Claimed
    ensures TargetStatus(o.status) != Claimed
  {
  }

  /** Until the job is claimed or scheduled again, the row keeps the recorded outcome: if it still
      carries the claim after a run, it has not changed at all. */
  lemma {:induction false} OutcomeStays(s: State, ops: seq<Op>, o: Outcome)
    requires Inv(s) && IsRun(s, ops) && ValidOutcome(o)
    requires o.workspaceId in s.jobs && Holds(s.jobs[o.workspaceId], o)
    ensures o.workspaceId in Run(s, ops).jobs
    ensures Run(s, ops).jobs[o.workspaceId].claimId == Some(o.claimId) ==>
            Run(s, ops).jobs[o.workspaceId] == s.jobs[o.workspaceId]
    decreases |ops|
  {
    hide Step, Inv, Holds, ValidOutcome, Retired, Eligible, Enabled;
    if |ops| > 0 {
      var s', ws := Step(s, ops[0]), o.workspaceId;
      RowStep(s, ops[0], ws);
      HeldIsNotClaimed(s.jobs[ws], o);
      NamesClaim(s.jobs[ws], o);
      StepInv(s, ops[0]);
      if s'.jobs[ws] == s.jobs[ws] {
        OutcomeStays(s', ops[1..], o);
      } else {
        RetiredAfterWrite(s, ops[0], ws, o.claimId);
        RetiredForever(s', ops[1..], o.claimId, 0);
        RowsStay(s', ops[1..], ws);
        RetiredRow(Run(s', ops[1..]), ws, o.claimId);
      }
    }
  }

  lemma RetiredRow(s: State, ws: id, c: id)
    requires Retired(s, c) && ws in s.jobs
    ensures s.jobs[ws].claimId != Some(c)
  {
  }

  lemma {:induction false} RowsStay(s: State, ops: seq<Op>, ws: id)
    requires ws in s.jobs
    ensures ws in Run(s, ops).jobs
    decreases |ops|
  {
    hide Step;
    if |ops| > 0 {
      RowStep(s, ops[0], ws);
      RowsStay(Step(s, ops[0]), ops[1..], ws);
    }
  }

  /** When the row that carried a claim gives it up, the claim is retired. */
  lemma RetiredAfterWrite(s: State, op: Op, ws: id, c: id)
    requires Inv(s) && Enabled(s, op) && ws in s.jobs && s.jobs[ws].claimId == Some(c)
    requires ws in Step(s, op).jobs
    requires s.jobs[ws].status != Claimed && Step(s, op).jobs[ws] != s.jobs[ws]
    ensures Retired(Step(s, op), c)
  {
    hide Step, Eligible, RowOk, CallOk;
    IssuedGrows(s, op);
    assert c in s.issued by { IssuedClaim(s, ws, c); }
    forall u | u in Step(s, op).jobs
      ensures Step(s, op).jobs[u].claimId != Some(c)
    {
      if u in s.jobs {
        RowStep(s, op, u);
      } else {
        AddedRow(s, op, u);
      }
    }
  }

  lemma IssuedClaim(s: State, ws: id, c: id)
    requires Inv(s) && ws in s.jobs && s.jobs[ws].claimId == Some(c)
    ensures c in s.issued
  {
    assert RowOk(s, ws);
  }

  /** Repeating an accepted completion while the row holds its outcome succeeds and changes no row. */
  lemma RepeatSucceeds(s: State, call: nat, raw: Outcome)
    requires var o := NormalOutcome(raw);
      ValidOutcome(o) && o.workspaceId in s.jobs && Holds(s.jobs[o.workspaceId], o)
    ensures var s' := StepRead(StepStart(s, call, raw), call);
      Succeeded(s', call) && s'.jobs == s.jobs
  {
    hide Holds, ValidOutcome;
    AcceptedHolds(s.jobs[NormalOutcome(raw).workspaceId], NormalOutcome(raw));
  }

  // ---------------------------------------------------------------- stored times

  predicate WholeRow(row: Row) {
    Whole(row.availableAt) && (row.leaseUntil.Some? ==> Whole(row.leaseUntil.value))
  }

  predicate WholeCall(call: Call) {
    Whole(call.o.retryAt) && (call.HasRead? ==> WholeRow(call.seen))
  }

  predicate WholeJobs(s: State) {
    forall ws :: ws in s.jobs ==> WholeRow(s.jobs[ws])
  }

  predicate WholeCalls(s: State) {
    forall k :: k in s.calls ==> WholeCall(s.calls[k])
  }

  predicate WholeTimes(s: State) {
    WholeJobs(s) && WholeCalls(s)
  }

  lemma NormalIsWhole(t: instant)
    ensures Whole(NormalizeTime(t))
  {
  }

  lemma WholeJobsStep(s: State, op: Op)
    requires WholeTimes(s) && Enabled(s, op)
    ensures WholeJobs(Step(s, op))
  {
    hide Whole, NormalizeTime, Judge, Holds, ValidOutcome, IsFirst, Eligible, JobIdTaken;
    match op
    case EnqueueOp(r) => NormalIsWhole(r.availableAt);
    case EnsureOp(r) => NormalIsWhole(r.availableAt);
    case RescheduleOp(ws, epoch, at) => NormalIsWhole(at);
    case ClaimOp(claimId, at, until) =>
      if First(s.jobs, at).Some? {
        FirstInTable(s.jobs, at, First(s.jobs, at).value);
      }
    case _ =>
  }

  lemma WholeCallsStep(s: State, op: Op)
    requires WholeTimes(s) && Enabled(s, op)
    ensures WholeCalls(Step(s, op))
  {
    hide Whole, NormalizeTime, Holds, ValidOutcome, IsFirst, Eligible, JobIdTaken;
    if op.StartOp? {
      NormalIsWhole(op.outcome.retryAt);
    }
  }

  /** In every run all stored times are whole microseconds. */
  lemma {:induction false} StoredTimesAreWhole(s: State, ops: seq<Op>)
    requires WholeTimes(s) && IsRun(s, ops)
    ensures WholeTimes(Run(s, ops))
    decreases |ops|
  {
    hide Step, Enabled, WholeJobs, WholeCalls;
    if |ops| > 0 {
      WholeJobsStep(s, ops[0]);
      WholeCallsStep(s, ops[0]);
      StoredTimesAreWhole(Step(s, ops[0]), ops[1..]);
    }
  }
}
