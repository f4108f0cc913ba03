/** What the callers of the generation queue are told when their statements run among those of others. */
module GenerationCalls {
  import opened Wrappers
  import opened Trimming
  import opened GenerationClaims
  import opened GenerationRuns

  // ---------------------------------------------------------------- a completion on its own

  /** What a completion knows after its first read. */
  function FirstRead(t: Table, o: Outcome): Call {
    if !ValidOutcome(o) then Done(o, InvalidClaim)
    else if o.workspaceId !in t then Done(o, JobNotFound)
    else match Judge(t[o.workspaceId], o)
         case Accepted => Done(o, Ok)
         case Refused => Done(o, ClaimConflict)
         case Proceed => HasRead(o, t[o.workspaceId])
  }

  lemma StartAndRead(s: State, call: nat, raw: Outcome)
    ensures Step(Step(s, StartOp(call, raw)), ReadOp(call))
      == s.(calls := s.calls[call := FirstRead(s.jobs, NormalOutcome(raw))])
  {
    hide ValidOutcome, Judge, NormalOutcome, StepEnqueue, StepEnsure, StepReschedule, StepClaim, StepSwap, StepReread;
    var o := NormalOutcome(raw);
    assert s.calls[call := Started(o)][call := FirstRead(s.jobs, o)] == s.calls[call := FirstRead(s.jobs, o)];
  }

  lemma SwapAndReread(s: State, call: nat, raw: Outcome)
    requires call in s.calls && s.calls[call] == FirstRead(s.jobs, NormalOutcome(raw))
    ensures var s' := Step(Step(s, SwapOp(call)), RereadOp(call));
      s'.jobs == Complete(s.jobs, raw).0
      && s'.calls == s.calls[call := Done(NormalOutcome(raw), Complete(s.jobs, raw).1)]
  {
    hide ValidOutcome, Holds, RecordedRow, OutcomeMatches, Names, NormalOutcome, StepEnqueue, StepEnsure,
      StepReschedule, StepClaim, StepStart, StepRead;
    var o := NormalOutcome(raw);
    if s.calls[call].HasRead? {
      NamesClaim(s.jobs[o.workspaceId], o);
    }
    assert s.calls[call := s.calls[call]] == s.calls;
  }

  /** Undisturbed, the statements of a completion do together what it does as one call. */
  lemma UninterruptedCompletion(s: State, call: nat, raw: Outcome)
    requires call !in s.calls
    ensures var ops := [StartOp(call, raw), ReadOp(call), SwapOp(call), RereadOp(call)];
      && IsRun(s, ops) && Run(s, ops).jobs == Complete(s.jobs, raw).0
      && Run(s, ops).calls == s.calls[call := Done(NormalOutcome(raw), Complete(s.jobs, raw).1)]
  {
    hide Run, IsRun, Step, Complete, FirstRead;
    FourSteps(s, [StartOp(call, raw), ReadOp(call), SwapOp(call), RereadOp(call)]);
    StartAndRead(s, call, raw);
    SwapAndReread(s.(calls := s.calls[call := FirstRead(s.jobs, NormalOutcome(raw))]), call, raw);
  }

  lemma FourSteps(s: State, ops: seq<Op>)
    requires |ops| == 4
    ensures Run(s, ops) == Step(Step(Step(Step(s, ops[0]), ops[1]), ops[2]), ops[3])
    ensures IsRun(s, ops) <==>
      && Enabled(s, ops[0]) && Enabled(Step(s, ops[0]), ops[1])
      && Enabled(Step(Step(s, ops[0]), ops[1]), ops[2])
      && Enabled(Step(Step(Step(s, ops[0]), ops[1]), ops[2]), ops[3])
  {
    hide Step, Enabled;
    var s1 := Step(s, ops[0]);
    var s2 := Step(s1, ops[1]);
    assert ops[1..][0] == ops[1] && ops[1..][1..] == ops[2..];
    assert ops[2..][0] == ops[2] && ops[2..][1..] == ops[3..];
    assert ops[3..][0] == ops[3] && |ops[3..][1..]| == 0;
    OneStep(s1, ops[1..]);
    OneStep(s2, ops[2..]);
    OneStep(Step(s2, ops[2]), ops[3..]);
  }

  lemma OneStep(s: State, ops: seq<Op>)
    requires |ops| > 0
    ensures Run(s, ops) == Run(Step(s, ops[0]), ops[1..])
    ensures IsRun(s, ops) <==> Enabled(s, ops[0]) && IsRun(Step(s, ops[0]), ops[1..])
    ensures |ops| == 1 ==> Run(s, ops) == Step(s, ops[0]) && (IsRun(s, ops) <==> Enabled(s, ops[0]))
  {
    hide Step, Enabled;
  }

  // ---------------------------------------------------------------- a completion among others

  /** The outcome a row holds is the one it reports. */
  lemma HeldIffReported(row: Row, o: Outcome)
    requires RowValid(row) && ValidOutcome(o)
    ensures Holds(row, o) <==> Reported(row, o)
  {
    if Holds(row, o) {
      HeldIsReported(row, o);
    }
    if Reported(row, o) {
      NamesClaim(row, o);
      assert o.status == ToRetry ==> Eligible(row, o.retryAt);
      assert o.status == ToRetry && row.status == RetryPending ==> Eligible(row, row.availableAt);
    }
  }

  /** The row is still leased under the claim of the outcome, and nothing was written to it since the read. */
  predicate Untouched(s: State, o: Outcome, seen: Row) {
    && o.workspaceId in s.jobs && s.jobs[o.workspaceId].status == Claimed
    && s.jobs[o.workspaceId].claimId == Some(o.claimId) && s.jobs[o.workspaceId].createdEpoch == o.createdEpoch
    && s.jobs[o.workspaceId].revision == seen.revision
  }

  /** The swap records the outcome exactly if nothing was written to the row since the read. */
  lemma SwapOutcome(s: State, call: nat, o: Outcome, seen: Row)
    requires Inv(s) && call in s.calls && s.calls[call] == HasRead(o, seen)
    ensures var s' := Step(s, SwapOp(call)); var ws := o.workspaceId;
      && (Untouched(s, o, seen) ==>
            && s'.calls == s.calls[call := Done(o, Ok)]
            && ws in s'.jobs && s'.jobs == s.jobs[ws := s'.jobs[ws]] && Reported(s'.jobs[ws], o))
      && (!Untouched(s, o, seen) ==> s' == s.(calls := s.calls[call := LostRace(o)]))
  {
    hide RowValid, Holds, ValidOutcome, RowOk, Reported, RecordedRow;
    CallOfInv(s, call);
    if o.workspaceId in s.jobs {
      NamesClaim(s.jobs[o.workspaceId], o);
      if CanRecord(s.jobs, o, seen) {
        RecordedRowHolds(s.jobs[o.workspaceId], o, seen);
        HeldIsReported(Step(s, SwapOp(call)).jobs[o.workspaceId], o);
      }
    }
  }

  /** A call that lost its race is told success exactly if the row reports its outcome by then. */
  lemma LoserIsTold(s: State, call: nat, o: Outcome)
    requires Inv(s) && call in s.calls && s.calls[call] == LostRace(o)
    ensures var held := o.workspaceId in s.jobs && Reported(s.jobs[o.workspaceId], o);
      Step(s, RereadOp(call)) == s.(calls := s.calls[call := Done(o, if held then Ok else ClaimConflict)])
  {
    hide RowValid, Holds, ValidOutcome, Reported;
    CallOfInv(s, call);
    if o.workspaceId in s.jobs {
      assert RowOk(s, o.workspaceId);
      HeldIffReported(s.jobs[o.workspaceId], o);
    }
  }

  // ---------------------------------------------------------------- every call is answered

  function Stage(c: Call): nat {
    match c
    case Started(_) => 0
    case HasRead(_, _) => 1
    case LostRace(_) => 2
    case Done(_, _) => 3
  }

  predicate OfCall(op: Op) {
    op.StartOp? || op.ReadOp? || op.SwapOp? || op.RereadOp?
  }

  /** The statements of the other methods leave the calls alone. */
  lemma OtherStatement(s: State, op: Op)
    requires !OfCall(op)
    ensures Step(s, op).calls == s.calls
  {
    hide StepStart, StepRead, StepSwap, StepReread, ValidRequest, UpsertJob, InsertJob, RescheduleJob, ClaimOne,
      NormalRequest;
  }

  lemma StageStep(s: State, op: Op, call: nat)
    requires call in s.calls && Enabled(s, op)
    ensures var s' := Step(s, op);
      && call in s'.calls && s'.calls[call].o == s.calls[call].o && Stage(s'.calls[call]) >= Stage(s.calls[call])
      && (op == ReadOp(call) ==> Stage(s'.calls[call]) > 0)
      && (op == SwapOp(call) && Stage(s.calls[call]) > 0 ==> Stage(s'.calls[call]) > 1)
      && (op == RereadOp(call) && Stage(s.calls[call]) > 1 ==> Stage(s'.calls[call]) > 2)
  {
    hide ValidOutcome, Holds, Judge, Record, CanRecord, NormalOutcome, StepEnqueue, StepEnsure, StepReschedule,
      StepClaim;
    if !OfCall(op) {
      OtherStatement(s, op);
    }
  }

  /** What is left to run for the call, at these positions. */
  predicate StillComing(s: State, ops: seq<Op>, call: nat, i: int, j: int, k: int)
    requires call in s.calls
  {
    && (Stage(s.calls[call]) <= 0 ==> 0 <= i < j && i < |ops| && ops[i] == ReadOp(call))
    && (Stage(s.calls[call]) <= 1 ==> 0 <= j < k && j < |ops| && ops[j] == SwapOp(call))
    && (Stage(s.calls[call]) <= 2 ==> 0 <= k < |ops| && ops[k] == RereadOp(call))
  }

  lemma {:induction false} AnsweredInTime(s: State, ops: seq<Op>, call: nat, i: int, j: int, k: int)
    requires IsRun(s, ops) && call in s.calls && StillComing(s, ops, call, i, j, k)
    ensures var u := Run(s, ops); call in u.calls && u.calls[call].Done? && u.calls[call].o == s.calls[call].o
    decreases |ops|
  {
    hide Step, Enabled;
    if |ops| > 0 {
      StageStep(s, ops[0], call);
      AnsweredInTime(Step(s, ops[0]), ops[1..], call, i - 1, j - 1, k - 1);
    }
  }

  /** Whatever runs between them, a call that has made its three statements has its answer. */
  lemma EveryCallIsAnswered(s: State, ops: seq<Op>, call: nat, i: nat, j: nat, k: nat)
    requires IsRun(s, ops) && call in s.calls && i < j < k < |ops|
    requires ops[i] == ReadOp(call) && ops[j] == SwapOp(call) && ops[k] == RereadOp(call)
    ensures var u := Run(s, ops); call in u.calls && u.calls[call].Done? && u.calls[call].o == s.calls[call].o
  {
    hide IsRun, Run, Stage;
    AnsweredInTime(s, ops, call, i, j, k);
  }

  // ---------------------------------------------------------------- rescheduling

  /** A job without a live lease is queued anew, from the last whole microsecond on; any other stays. */
  lemma RescheduleOutcome(s: State, workspaceId: id, epoch: int, at: instant)
    ensures var s' := Step(s, RescheduleOp(workspaceId, epoch, at)); var ws := TrimSpace(workspaceId);
      if ws != [] && epoch >= 1 && !(0 <= at < 1000) && ws in s.jobs && s.jobs[ws].status != Claimed then
        && ws in s'.jobs && s' == s.(jobs := s.jobs[ws := s'.jobs[ws]], cycle := s.cycle[ws := []])
        && (forall t :: Eligible(s'.jobs[ws], t) <==> at - at % 1000 <= t)
        && s'.jobs[ws].status == Queued && s'.jobs[ws].createdEpoch == epoch && s'.jobs[ws].attempt == 0
        && s'.jobs[ws].claimId == None && s'.jobs[ws].jobId == s.jobs[ws].jobId
        && s'.jobs[ws].revision == s.jobs[ws].revision + 1
      else s' == s
  {
    hide TrimSpace;
    WholeMicroseconds(at);
    if TrimSpace(workspaceId) in s.jobs {
      assert Requeued(s.jobs[TrimSpace(workspaceId)], epoch, NormalizeTime(at)).revision
        != s.jobs[TrimSpace(workspaceId)].revision;
    }
  }
}
