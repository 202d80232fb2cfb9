/** The authoritative state of one run: constructor checks, and the methods that never repeat them. */
module RunStateSpec {
  import opened Wrappers
  import opened ExecutionContracts
  import opened RunControl
  import R = Reconciliation

  const CHECKPOINT_PREFIX := "runtime-checkpoint:"

  datatype RunStatus =
    | RunRunning | RunPaused | RunWaitingUser | RunWaitingConfirmation
    | RunDone | RunBlocked | RunCancelled | RunFailed

  datatype Termination = ControlStalled | TurnBudgetExhausted | WaitBudgetExhausted | AgentAborted | UserCancelled

  datatype TaskEvaluation = TaskEvaluation(observationId: string, status: EvaluationStatus)

  datatype Finalization = Finalization(postStopObservationId: string, native: Option<EvaluationStatus>)

  datatype GoalResolution = Ready(planRevision: nat, planVersion: nat) | NoPlan

  datatype Projection = Projection(observationId: string, lineage: string)

  /** A receipt that crossed dispatch, with what its committed effect copies from it. */
  datatype Receipt = Receipt(requestId: string, resource: string, semanticEffects: seq<string>,
                             reversibility: Reversibility, dispatch: DispatchStatus, beforeObservation: string,
                             afterObservation: string)

  datatype RunState = RunState(
    worldId: string,
    evaluation: Option<TaskEvaluation>,
    remainingSteps: nat,
    status: RunStatus,
    observationCount: nat,
    executionCount: nat,
    stepCount: nat,
    waitedMs: nat,
    taskRevision: nat,
    goal: GoalResolution,
    planVersions: nat,
    sentUnknown: nat,
    decisionCounts: map<string, nat>,
    finalization: Option<Finalization>,
    deliveryIndex: Option<string>,
    priorDeliveryIndex: Option<string>,
    canonicalWorld: Option<string>,
    projection: Option<Projection>,
    termination: Option<Termination>,
    boundary: Option<Outcome>,
    checkpointId: string,
    pausedFrom: Option<RunStatus>,
    latestEffect: Option<R.CommittedEffect>,
    reconciliation: Option<R.EffectReconciliation>)

  datatype StepResult = StepResult(
    decisionKind: Option<string>,
    beforeId: string,
    afterId: string,
    evaluation: Option<TaskEvaluation>,
    statusAfter: RunStatus,
    receipts: seq<Receipt>,
    outcomePostcondition: Option<Postcondition>,
    evaluationFailed: bool,
    afterDeliveryIndex: Option<string>,
    afterPublicWorld: Option<string>,
    termination: Option<Termination>,
    boundary: Option<Outcome>,
    finalization: Option<Finalization>,
    waitedMs: nat)

  predicate Terminal(s: RunStatus) {
    s == RunDone || s == RunBlocked || s == RunCancelled || s == RunFailed
  }

  predicate Resumable(s: RunStatus) {
    s == RunRunning || s == RunWaitingUser || s == RunWaitingConfirmation
  }

  // ---- constructor checks ----

  predicate FinalizationFits(f: Finalization, status: RunStatus) {
    match f.native
    case Some(Complete) => status == RunDone
    case Some(Blocked) => status == RunBlocked
    case Some(_) => status == RunFailed
    case None => status == RunFailed || status == RunCancelled
  }

  predicate FinalizationIdentifies(f: Finalization, worldId: string, evaluation: Option<TaskEvaluation>) {
    && (f.postStopObservationId != "" ==> f.postStopObservationId == worldId)
    && (f.native.Some? && evaluation.Some? ==> f.native.value == evaluation.value.status)
  }

  predicate ReachedBoundary(o: Outcome) {
    match o.outcome
    case Cancelled => o.kind == Cancel
    case PauseBoundaryReached => o.kind == Pause
    case _ => false
  }

  predicate EffectStateFits(executions: nat, revision: nat, latest: Option<R.CommittedEffect>,
                            rec: Option<R.EffectReconciliation>)
  {
    && (latest.Some? ==> executions >= 1 && latest.value.taskRevision <= revision)
    && (rec.Some? ==>
          && rec.value.revisedRevision == revision
          && if rec.value.status == R.Pending then latest == Some(rec.value.original)
             else rec.value.compensation.Some? ==> latest == rec.value.compensation)
  }

  /** Everything attached to the world describes the current one. */
  predicate WorldFits(s: RunState) {
    && (s.evaluation.Some? ==> s.evaluation.value.observationId == s.worldId)
    && (s.evaluation.None? ==> s.status == RunFailed || s.status == RunCancelled)
    && s.observationCount >= 1 && s.taskRevision >= 1
    && (s.finalization.Some? ==>
          FinalizationIdentifies(s.finalization.value, s.worldId, s.evaluation)
            && FinalizationFits(s.finalization.value, s.status))
    && (s.deliveryIndex.Some? ==> s.deliveryIndex.value == s.worldId)
    && (s.goal.Ready? ==> s.goal.planRevision == s.taskRevision && s.planVersions >= s.goal.planVersion)
    && (s.projection.Some?
       ==> s.projection.value.observationId == s.worldId && s.canonicalWorld == Some(s.projection.value.lineage))
  }

  /** A durable pause has its checkpoint and reached boundary, and nothing else has a checkpoint. */
  predicate PauseFits(s: RunState) {
    && (s.boundary.Some? ==> ReachedBoundary(s.boundary.value))
    && (if s.status == RunPaused then
          && s.boundary.Some? && s.boundary.value.kind == Pause
          && CHECKPOINT_PREFIX <= s.checkpointId && s.pausedFrom.Some? && Resumable(s.pausedFrom.value)
        else
          s.checkpointId == "" && s.pausedFrom.None?)
  }

  predicate EffectsFit(s: RunState) {
    && EffectStateFits(s.executionCount, s.taskRevision, s.latestEffect, s.reconciliation)
    && (s.latestEffect.Some? ==> R.Committed(s.latestEffect.value))
    && (s.reconciliation.Some? ==> R.Admissible(s.reconciliation.value))
  }

  /** `RunState.__post_init__`, with the record checks of the values it holds. */
  predicate Valid(s: RunState) {
    WorldFits(s) && PauseFits(s) && EffectsFit(s)
  }

  /** The checks of `StepResult.__post_init__` that the run state relies on. */
  predicate AdmissibleStep(r: StepResult) {
    && (r.evaluation.Some? ==> r.evaluation.value.observationId == r.afterId)
    && (r.evaluation.None? ==> (r.statusAfter == RunFailed && r.evaluationFailed) || r.statusAfter == RunCancelled)
    && (r.termination.Some?
       ==> r.statusAfter == RunBlocked || r.statusAfter == RunCancelled || r.statusAfter == RunFailed)
    && (r.boundary.Some? ==>
          match r.boundary.value.outcome
          case Cancelled => r.statusAfter == RunCancelled
          case PauseBoundaryReached => Resumable(r.statusAfter)
          case _ => false)
    && (r.afterDeliveryIndex.Some? ==> r.afterDeliveryIndex.value == r.afterId)
    && (r.finalization.Some? ==>
          && FinalizationIdentifies(r.finalization.value, r.afterId, r.evaluation)
          && (r.finalization.value.postStopObservationId == "" ==> r.afterId == r.beforeId)
          && FinalizationFits(r.finalization.value, r.statusAfter))
    && (forall i | 0 <= i < |r.receipts| :: r.receipts[i].dispatch != NotSent)
  }

  // ---- apply ----

  function CommittedFrom(receipt: Receipt, revision: nat): R.CommittedEffect {
    R.CommittedEffect(revision, receipt.requestId, receipt.resource, receipt.semanticEffects, receipt.reversibility,
                      receipt.dispatch, receipt.beforeObservation, receipt.afterObservation)
  }

  function LastEffect(r: StepResult, revision: nat): R.CommittedEffect
    requires r.receipts != []
  {
    CommittedFrom(r.receipts[|r.receipts| - 1], revision)
  }

  function CountUnknown(receipts: seq<Receipt>): nat {
    if receipts == [] then 0
    else CountUnknown(receipts[..|receipts| - 1]) + (if receipts[|receipts| - 1].dispatch == SentUnknown then 1 else 0)
  }

  /** The reconciliation after a step: only receipts can close a pending one. */
  function Reconciled(s: RunState, r: StepResult): Result<Option<R.EffectReconciliation>> {
    if r.receipts == [] || s.reconciliation.None?
      || s.reconciliation.value.status != R.Pending then Ok(s.reconciliation)
    else
      var effect := LastEffect(r, s.taskRevision);
      var closed := if |r.receipts| != 1
        then R.RequireInput(s.reconciliation.value, R.CompensationMultipleEffects, Some(effect))
                    else R.CloseAttempt(s.reconciliation.value, effect, r.outcomePostcondition == Some(Satisfied));
      match closed
      case Ok(rec) => Ok(Some(rec))
      case Raised => Raised
  }

  function WithCanonical(s: RunState, lineage: string): RunState {
    s.(canonicalWorld := Some(lineage),
       projection := if s.projection.Some? && s.projection.value.lineage != lineage then None else s.projection)
  }

  function Apply(s: RunState, r: StepResult, consume: bool): Result<RunState> {
    if s.status != RunRunning || r.beforeId != s.worldId then Raised
    else match Reconciled(s, r)
         case Raised => Raised
         case Ok(rec) => Ok(Advanced(s, r, consume, rec))
  }

  function Advanced(s: RunState, r: StepResult, consume: bool, rec: Option<R.EffectReconciliation>): RunState {
    StepCounted(ReceiptsCommitted(StatusAdopted(WorldAdvanced(s, r), r), r, rec), r, consume)
  }

  /** World, evaluation, canonical world, and the views that belong to one observation. */
  function WorldAdvanced(s: RunState, r: StepResult): RunState {
    WorldReplaced(if r.afterPublicWorld.Some? then WithCanonical(s, r.afterPublicWorld.value) else s, r)
  }

  function WorldReplaced(s: RunState, r: StepResult): RunState {
    var moved := r.afterId != r.beforeId;
    s.(worldId := r.afterId,
       evaluation := r.evaluation,
       observationCount := s.observationCount + (if moved then 1 else 0),
       deliveryIndex := if moved then r.afterDeliveryIndex else s.deliveryIndex,
       priorDeliveryIndex := if moved then s.deliveryIndex else s.priorDeliveryIndex,
       projection := if moved then None else s.projection)
  }

  function StatusAdopted(s: RunState, r: StepResult): RunState {
    s.(status := r.statusAfter,
       boundary := if r.boundary.Some? then r.boundary else s.boundary,
       termination := if r.termination.Some? then r.termination
                      else if r.boundary.Some? && r.boundary.value.kind == Cancel then Some(UserCancelled)
                      else s.termination,
       finalization := if r.finalization.Some? then r.finalization else s.finalization)
  }

  function ReceiptsCommitted(s: RunState, r: StepResult, rec: Option<R.EffectReconciliation>): RunState {
    s.(executionCount := s.executionCount + |r.receipts|,
       sentUnknown := s.sentUnknown + CountUnknown(r.receipts),
       latestEffect := if r.receipts != [] then Some(LastEffect(r, s.taskRevision)) else s.latestEffect,
       reconciliation := rec)
  }

  function StepCounted(s: RunState, r: StepResult, consume: bool): RunState {
    s.(remainingSteps := if consume && s.remainingSteps > 0 then s.remainingSteps - 1 else s.remainingSteps,
       stepCount := s.stepCount + (if consume then 1 else 0),
       decisionCounts := CountDecision(s.decisionCounts, r.decisionKind),
       waitedMs := s.waitedMs + r.waitedMs)
  }

  function CountDecision(counts: map<string, nat>, kind: Option<string>): map<string, nat> {
    match kind
    case None => counts
    case Some(k) => counts[k := (if k in counts then counts[k] else 0) + 1]
  }

  // ---- the other transitions ----

  function ApplyControlBoundary(s: RunState, o: Outcome): Result<RunState> {
    if Terminal(s.status) || !ReachedBoundary(o) then Raised
    else if o.kind == Cancel then
      Ok(s.(boundary := Some(o), checkpointId := "", pausedFrom := None, status := RunCancelled,
            termination := Some(UserCancelled)))
    else Ok(s.(boundary := Some(o)))
  }

  function ResumeControlBoundary(s: RunState): Result<RunState> {
    if s.boundary.None? || s.boundary.value.outcome != PauseBoundaryReached then Raised
    else if s.status == RunPaused then
      if s.pausedFrom.None? then Raised
      else Ok(s.(status := s.pausedFrom.value, checkpointId := "", pausedFrom := None, boundary := None))
    else Ok(s.(boundary := None))
  }

  function CommitDurablePause(s: RunState, checkpointId: string): Result<RunState> {
    if || s.boundary.None? || s.boundary.value.kind != Pause || s.boundary.value.outcome != PauseBoundaryReached
       || !Resumable(s.status) || !(CHECKPOINT_PREFIX <= checkpointId)
    then Raised
    else Ok(s.(pausedFrom := Some(s.status), status := RunPaused, checkpointId := checkpointId))
  }

  function ResumeWaiting(s: RunState, expected: RunStatus): Result<RunState> {
    if (expected != RunWaitingUser && expected != RunWaitingConfirmation) || s.status != expected then Raised
    else Ok(s.(status := RunRunning))
  }

  function BeginExternalRefresh(s: RunState): Result<RunState> {
    if s.boundary.Some? || s.checkpointId != "" || !Resumable(s.status) then Raised
    else Ok(s.(status := RunRunning))
  }

  function InstallReconciliation(s: RunState, rec: R.EffectReconciliation): Result<RunState> {
    if rec.revisedRevision != s.taskRevision || Some(rec.original) != s.latestEffect || s.reconciliation.Some?
    then Raised
    else Ok(s.(reconciliation := Some(rec)))
  }

  function RequireReconciliationInput(s: RunState, reason: R.Reason, effect: Option<R.CommittedEffect>)
    : Result<RunState>
  {
    match s.reconciliation
    case None => Raised
    case Some(rec) =>
      match R.RequireInput(rec, reason, effect)
      case Raised => Raised
      case Ok(closed) => Ok(s.(reconciliation := Some(closed)))
  }

  function InstallDeliveryIndex(s: RunState, worldId: string): Result<RunState> {
    if worldId != s.worldId then Raised else Ok(s.(deliveryIndex := Some(worldId), priorDeliveryIndex := None))
  }

  function InstallProjection(s: RunState, p: Projection): Result<RunState> {
    if p.observationId != s.worldId || s.canonicalWorld != Some(p.lineage) then Raised
    else Ok(s.(projection := Some(p)))
  }

  datatype Op =
    | ApplyOp(step: StepResult, consume: bool)
    | BoundaryOp(outcome: Outcome)
    | ResumeBoundaryOp
    | CommitPauseOp(checkpointId: string)
    | ResumeWaitingOp(expected: RunStatus)
    | BeginRefreshOp
    | InstallReconciliationOp(rec: R.EffectReconciliation)
    | RequireInputOp(reason: R.Reason, effect: Option<R.CommittedEffect>)
    | InstallDeliveryIndexOp(worldId: string)
    | InstallCanonicalOp(lineage: string)
    | InstallProjectionOp(projection: Projection)

  function Perform(s: RunState, op: Op): Result<RunState> {
    match op
    case ApplyOp(r, consume) => Apply(s, r, consume)
    case BoundaryOp(o) => ApplyControlBoundary(s, o)
    case ResumeBoundaryOp => ResumeControlBoundary(s)
    case CommitPauseOp(id) => CommitDurablePause(s, id)
    case ResumeWaitingOp(expected) => ResumeWaiting(s, expected)
    case BeginRefreshOp => BeginExternalRefresh(s)
    case InstallReconciliationOp(rec) => InstallReconciliation(s, rec)
    case RequireInputOp(reason, effect) => RequireReconciliationInput(s, reason, effect)
    case InstallDeliveryIndexOp(id) => InstallDeliveryIndex(s, id)
    case InstallCanonicalOp(lineage) => Ok(WithCanonical(s, lineage))
    case InstallProjectionOp(p) => InstallProjection(s, p)
  }
}

/** What the run state keeps, exactly when, and how a compensation demand ends. */
module RunStateTheorems {
  import opened Wrappers
  import opened ExecutionContracts
  import opened RunStateSpec
  import RunControl
  import R = Reconciliation

  /** The arguments passed their own constructors. */
  predicate AdmissibleOp(op: Op) {
    match op
    case ApplyOp(r, _) => AdmissibleStep(r)
    case InstallReconciliationOp(rec) => R.Admissible(rec) && R.Committed(rec.original)
    case _ => true
  }

  /** Receipts arrive while no closed reconciliation pins another effect. */
  predicate ReceiptsFit(s: RunState, r: StepResult) {
    r.receipts == [] || s.reconciliation.None? || s.reconciliation.value.status == R.Pending
    || s.reconciliation.value.compensation.None?
    || s.reconciliation.value.compensation == Some(LastEffect(r, s.taskRevision))
  }

  /** What a caller must check before the call for the constructor checks to survive it. */
  predicate CallerKeepsChecks(s: RunState, op: Op) {
    match op
    case ApplyOp(r, _) =>
      r.statusAfter != RunPaused && (r.boundary.Some? ==> ReachedBoundary(r.boundary.value)) && ReceiptsFit(s, r)
    case InstallReconciliationOp(rec) => rec.status == R.Pending || rec.compensation.None?
    case RequireInputOp(_, effect) => effect.None?
    case _ => true
  }

  /** A pending reconciliation of a valid state is closed by receipts without failing any constructor. */
  lemma PendingCloses(s: RunState, r: StepResult)
    requires Valid(s) && AdmissibleStep(r) && r.receipts != []
    requires s.reconciliation.Some? && s.reconciliation.value.status == R.Pending
    ensures Reconciled(s, r).Ok? && Reconciled(s, r).value.Some?
    ensures var c := Reconciled(s, r).value.value;
            && R.Admissible(c) && c.original == s.reconciliation.value.original && c.revisedRevision == s.taskRevision
            && c.status != R.Pending && c.compensation == Some(LastEffect(r, s.taskRevision))
            && (c.status == R.Compensated <==>
                  && |r.receipts| == 1 && r.receipts[0].resource == c.original.resource
                  && r.receipts[0].dispatch == Sent && r.outcomePostcondition == Some(Satisfied))
  {
    var effect := LastEffect(r, s.taskRevision);
    assert R.Committed(effect);
    R.AttemptCloses(s.reconciliation.value, effect, r.outcomePostcondition == Some(Satisfied));
  }

  /** `apply` raises only for a run that is not running or a stale world. */
  lemma ApplyRaisesOnlyUpFront(s: RunState, r: StepResult, consume: bool)
    requires Valid(s) && AdmissibleStep(r)
    ensures Apply(s, r, consume).Raised? <==> s.status != RunRunning || r.beforeId != s.worldId
  {
    if r.receipts != [] && s.reconciliation.Some? && s.reconciliation.value.status == R.Pending {
      PendingCloses(s, r);
    }
  }

  ghost predicate Applicable(s: RunState, r: StepResult) {
    Valid(s) && AdmissibleStep(r) && s.status == RunRunning && r.beforeId == s.worldId
  }

  lemma ApplyKeepsWorld(s: RunState, r: StepResult, consume: bool, rec: Option<R.EffectReconciliation>)
    requires Applicable(s, r)
    ensures WorldFits(Advanced(s, r, consume, rec))
  {
  }

  lemma ApplyKeepsPauseExactly(s: RunState, r: StepResult, consume: bool, rec: Option<R.EffectReconciliation>)
    requires Applicable(s, r)
    ensures PauseFits(Advanced(s, r, consume, rec)) <==>
              r.statusAfter != RunPaused && (r.boundary.Some? ==> ReachedBoundary(r.boundary.value))
  {
  }

  lemma ApplyKeepsEffectsExactly(s: RunState, r: StepResult, consume: bool)
    requires Applicable(s, r) && Reconciled(s, r).Ok?
    ensures EffectsFit(Advanced(s, r, consume, Reconciled(s, r).value)) <==> ReceiptsFit(s, r)
  {
    var n := Advanced(s, r, consume, Reconciled(s, r).value);
    assert n.executionCount == s.executionCount + |r.receipts| && n.taskRevision == s.taskRevision;
    if r.receipts != [] {
      assert R.Committed(LastEffect(r, s.taskRevision));
      if s.reconciliation.Some? && s.reconciliation.value.status == R.Pending {
        PendingCloses(s, r);
      }
    }
  }

  lemma ApplyKeepsExactly(s: RunState, r: StepResult, consume: bool)
    requires Valid(s) && AdmissibleStep(r) && Apply(s, r, consume).Ok?
    ensures Valid(Apply(s, r, consume).value) <==> CallerKeepsChecks(s, ApplyOp(r, consume))
  {
    var rec := Reconciled(s, r).value;
    ApplyKeepsWorld(s, r, consume, rec);
    ApplyKeepsPauseExactly(s, r, consume, rec);
    ApplyKeepsEffectsExactly(s, r, consume);
    assert Apply(s, r, consume).value == Advanced(s, r, consume, rec);
  }

  lemma ReconciliationCallsKeepExactly(s: RunState, op: Op)
    requires op.InstallReconciliationOp? || op.RequireInputOp?
    requires Valid(s) && AdmissibleOp(op) && Perform(s, op).Ok?
    ensures Valid(Perform(s, op).value) <==> CallerKeepsChecks(s, op)
  {
  }

  lemma BoundaryKeeps(s: RunState, o: RunControl.Outcome)
    requires Valid(s) && ApplyControlBoundary(s, o).Ok?
    ensures Valid(ApplyControlBoundary(s, o).value)
  {
  }

  lemma ResumeBoundaryKeeps(s: RunState)
    requires Valid(s) && ResumeControlBoundary(s).Ok?
    ensures Valid(ResumeControlBoundary(s).value)
  {
    var n := ResumeControlBoundary(s).value;
    if s.status == RunPaused {
      assert s.evaluation.Some? && s.finalization.None?;
      assert PauseFits(n);
      assert WorldFits(n);
    }
  }

  lemma CommitPauseKeeps(s: RunState, checkpointId: string)
    requires Valid(s) && CommitDurablePause(s, checkpointId).Ok?
    ensures Valid(CommitDurablePause(s, checkpointId).value)
  {
  }

  lemma ReturningToRunningKeeps(s: RunState)
    requires Valid(s) && Resumable(s.status)
    ensures Valid(s.(status := RunRunning))
  {
  }

  /** Every constructor check survives a call exactly when the caller met its condition. */
  lemma ChecksSurviveExactly(s: RunState, op: Op)
    requires Valid(s) && AdmissibleOp(op) && Perform(s, op).Ok?
    ensures Valid(Perform(s, op).value) <==> CallerKeepsChecks(s, op)
  {
    if op.ApplyOp? {
      ApplyKeepsExactly(s, op.step, op.consume);
    } else if op.InstallReconciliationOp? || op.RequireInputOp? {
      ReconciliationCallsKeepExactly(s, op);
    } else if op.BoundaryOp? {
      BoundaryKeeps(s, op.outcome);
    } else if op.ResumeBoundaryOp? {
      ResumeBoundaryKeeps(s);
    } else if op.CommitPauseOp? {
      CommitPauseKeeps(s, op.checkpointId);
    } else if op.ResumeWaitingOp? || op.BeginRefreshOp? {
      ReturningToRunningKeeps(s);
    }
  }

  /** A terminal status is never left. */
  lemma TerminalIsAbsorbing(s: RunState, op: Op)
    requires Terminal(s.status) && Perform(s, op).Ok?
    ensures Perform(s, op).value.status == s.status
  {
  }

  // ---- runs ----

  /** A call that raises changes nothing. */
  function After(s: RunState, ops: seq<Op>): RunState {
    if ops == [] then s
    else
      var before := After(s, ops[..|ops| - 1]);
      match Perform(before, ops[|ops| - 1])
      case Ok(next) => next
      case Raised => before
  }

  ghost predicate CallersKeepChecks(s: RunState, ops: seq<Op>) {
    forall k | 0 <= k < |ops| :: AdmissibleOp(ops[k]) && CallerKeepsChecks(After(s, ops[..k]), ops[k])
  }

  lemma KeptPrefix(s: RunState, ops: seq<Op>, n: nat)
    requires n <= |ops| && CallersKeepChecks(s, ops)
    ensures CallersKeepChecks(s, ops[..n])
  {
    forall k | 0 <= k < n ensures AdmissibleOp(ops[..n][k]) && CallerKeepsChecks(After(s, ops[..n][..k]), ops[..n][k]) {
      assert ops[..n][..k] == ops[..k];
    }
  }

  /** Over every sequence of calls, the constructor checks hold and a terminal status stays. */
  lemma {:induction false} RunsKeepChecks(s: RunState, ops: seq<Op>)
    requires Valid(s) && CallersKeepChecks(s, ops)
    ensures Valid(After(s, ops))
    ensures Terminal(s.status) ==> After(s, ops).status == s.status
  {
    if ops == [] {
    } else {
      KeptPrefix(s, ops, |ops| - 1);
      RunsKeepChecks(s, ops[..|ops| - 1]);
      var before, op := After(s, ops[..|ops| - 1]), ops[|ops| - 1];
      if Perform(before, op).Ok? {
        ChecksSurviveExactly(before, op);
        if Terminal(before.status) {
          TerminalIsAbsorbing(before, op);
        }
      }
    }
  }

  // ---- what each condition rules out, at a concrete run ----

  /** A running run on world "w" at a task revision, with a latest effect and a reconciliation. */
  function SomeRun(revision: nat, executions: nat, latest: Option<R.CommittedEffect>,
                   rec: Option<R.EffectReconciliation>): RunState
  {
    RunState("w", Some(TaskEvaluation("w", Incomplete)), 1, RunRunning, 1, executions, 0, 0, revision, NoPlan, 0, 0,
             map[], None, None, None, None, None, None, None, "", None, latest, rec)
  }

  /** An evaluated step that stays on world "w". */
  function SomeStep(status: RunStatus, receipts: seq<Receipt>, boundary: Option<RunControl.Outcome>): StepResult {
    StepResult(None, "w", "w", Some(TaskEvaluation("w", Incomplete)), status, receipts, None, false, None, None, None,
               boundary, None, 0)
  }

  function SomeEffect(revision: nat, request: string): R.CommittedEffect {
    R.CommittedEffect(revision, request, "r", [], Reversible, Sent, "w", "w")
  }

  function SomeReceipt(request: string): Receipt {
    Receipt(request, "r", [], Reversible, Sent, "w", "w")
  }

  function Demand(status: R.Status, reason: R.Reason, compensation: Option<R.CommittedEffect>): R.EffectReconciliation {
    R.EffectReconciliation(SomeEffect(1, "a"), 2, status, reason, compensation)
  }

  /** The call is admissible and succeeds on a valid run, and leaves it in a state its constructor refuses. */
  ghost predicate Corrupts(s: RunState, op: Op) {
    Valid(s) && AdmissibleOp(op) && Perform(s, op).Ok? && !Valid(Perform(s, op).value)
  }

  lemma BreachCorrupts(s: RunState, op: Op)
    requires Valid(s) && AdmissibleOp(op) && Perform(s, op).Ok? && !CallerKeepsChecks(s, op)
    ensures Corrupts(s, op)
  {
    ChecksSurviveExactly(s, op);
  }

  lemma StepBreachCorrupts(s: RunState, r: StepResult)
    requires Valid(s) && AdmissibleStep(r) && s.status == RunRunning && r.beforeId == s.worldId
    requires !CallerKeepsChecks(s, ApplyOp(r, true))
    ensures Corrupts(s, ApplyOp(r, true))
  {
    ApplyRaisesOnlyUpFront(s, r, true);
    BreachCorrupts(s, ApplyOp(r, true));
  }

  /** A step that ends paused has no durable checkpoint. */
  lemma PausedStepCorrupts()
    ensures Corrupts(SomeRun(1, 0, None, None), ApplyOp(SomeStep(RunPaused, [], None), true))
  {
    StepBreachCorrupts(SomeRun(1, 0, None, None), SomeStep(RunPaused, [], None));
  }

  /** A boundary that reports a cancel for a pause command passes the step's constructor. */
  lemma MismatchedBoundaryCorrupts()
    ensures Corrupts(SomeRun(1, 0, None, None), ApplyOp(SomeStep(RunCancelled, [], Some(MismatchedBoundary())), true))
  {
    StepBreachCorrupts(SomeRun(1, 0, None, None), SomeStep(RunCancelled, [], Some(MismatchedBoundary())));
  }

  function MismatchedBoundary(): RunControl.Outcome {
    RunControl.Outcome("c", RunControl.Pause, RunControl.Cancelled, Some(RunControl.BeforePolicy))
  }

  /** A receipt after the compensation is closed replaces the effect the closed record names. */
  lemma LaterReceiptCorrupts()
    ensures Corrupts(CompensatedRun(), ApplyOp(SomeStep(RunRunning, [SomeReceipt("c")], None), true))
  {
    assert "b"[0] != "c"[0];
    assert SomeEffect(2, "c") != SomeEffect(2, "b");
    StepBreachCorrupts(CompensatedRun(), SomeStep(RunRunning, [SomeReceipt("c")], None));
  }

  function CompensatedRun(): RunState {
    SomeRun(2, 2, Some(SomeEffect(2, "b")),
            Some(Demand(R.Compensated, R.CompensationVerified, Some(SomeEffect(2, "b")))))
  }

  /** A demand installed already closed names an effect that is not the latest one. */
  lemma ClosedDemandCorrupts()
    ensures Corrupts(SomeRun(2, 1, Some(SomeEffect(1, "a")), None),
                     InstallReconciliationOp(Demand(R.NeedsInput, R.CompensationUnverified, Some(SomeEffect(2, "b")))))
  {
    BreachCorrupts(SomeRun(2, 1, Some(SomeEffect(1, "a")), None),
                   InstallReconciliationOp(Demand(R.NeedsInput, R.CompensationUnverified, Some(SomeEffect(2, "b")))));
  }

  /** Required input that names an effect names one that is not the latest. */
  lemma InputWithEffectCorrupts()
    ensures Corrupts(SomeRun(2, 1, Some(SomeEffect(1, "a")), Some(Demand(R.Pending, R.CompensationIsRequired, None))),
                     RequireInputOp(R.CompensationUnverified, Some(SomeEffect(2, "b"))))
  {
    BreachCorrupts(SomeRun(2, 1, Some(SomeEffect(1, "a")), Some(Demand(R.Pending, R.CompensationIsRequired, None))),
                   RequireInputOp(R.CompensationUnverified, Some(SomeEffect(2, "b"))));
  }

  // ---- the compensation lifecycle ----

  predicate ClosesReconciliation(op: Op) {
    (op.ApplyOp? && op.step.receipts != []) || op.RequireInputOp?
  }

  /** One call leaves a reconciliation alone, or closes a pending one, with the verdict its receipts deserve. */
  lemma ReconciliationStep(s: RunState, op: Op)
    requires Valid(s) && AdmissibleOp(op) && s.reconciliation.Some? && Perform(s, op).Ok?
    ensures var n := Perform(s, op).value;
            if s.reconciliation.value.status != R.Pending || !ClosesReconciliation(op) then
              && n.reconciliation == s.reconciliation
              && (s.reconciliation.value.status == R.Pending
                 ==> n.latestEffect == Some(s.reconciliation.value.original))
            else
              && n.reconciliation.Some? && n.reconciliation.value.status != R.Pending
                 && R.Admissible(n.reconciliation.value)
              && n.reconciliation.value.original == s.reconciliation.value.original
              && (op.RequireInputOp? ==> n.reconciliation.value.status == R.NeedsInput)
              && (op.ApplyOp? ==>
                    (n.reconciliation.value.status == R.Compensated <==>
                       && |op.step.receipts| == 1
                          && op.step.receipts[0].resource == s.reconciliation.value.original.resource
                       && op.step.receipts[0].dispatch == Sent && op.step.outcomePostcondition == Some(Satisfied)))
  {
    if op.ApplyOp? && op.step.receipts != [] && s.reconciliation.value.status == R.Pending {
      PendingCloses(s, op.step);
    }
  }

  /** Until the first receipts or required input, a pending demand and its effect stay as installed. */
  lemma {:induction false} PendingUntilClosed(s: RunState, ops: seq<Op>)
    requires Valid(s) && CallersKeepChecks(s, ops)
    requires s.reconciliation.Some? && s.reconciliation.value.status == R.Pending
    requires forall k | 0 <= k < |ops| :: !ClosesReconciliation(ops[k])
    ensures After(s, ops).reconciliation == s.reconciliation
    ensures After(s, ops).latestEffect == Some(s.reconciliation.value.original)
  {
    if ops == [] {
    } else {
      var before, op := After(s, ops[..|ops| - 1]), ops[|ops| - 1];
      KeptPrefix(s, ops, |ops| - 1);
      RunsKeepChecks(s, ops[..|ops| - 1]);
      PendingUntilClosed(s, ops[..|ops| - 1]);
      if Perform(before, op).Ok? {
        ReconciliationStep(before, op);
      }
    }
  }

  /** A closed demand is never reopened or rewritten. */
  lemma {:induction false} ClosedForGood(s: RunState, ops: seq<Op>)
    requires Valid(s) && CallersKeepChecks(s, ops)
    requires s.reconciliation.Some? && s.reconciliation.value.status != R.Pending
    ensures After(s, ops).reconciliation == s.reconciliation
  {
    if ops == [] {
    } else {
      var before, op := After(s, ops[..|ops| - 1]), ops[|ops| - 1];
      KeptPrefix(s, ops, |ops| - 1);
      RunsKeepChecks(s, ops[..|ops| - 1]);
      ClosedForGood(s, ops[..|ops| - 1]);
      if Perform(before, op).Ok? {
        ReconciliationStep(before, op);
      }
    }
  }

  /** A demanded compensation can be installed on the revised run, and the run stays valid. */
  lemma DemandIsInstalled(s: RunState, satisfied: bool)
    requires Valid(s) && s.reconciliation.None? && s.latestEffect.Some?
             && s.latestEffect.value.taskRevision < s.taskRevision
    requires R.AssessRevision(s.executionCount, s.latestEffect, satisfied).disposition == R.CompensationRequired
    ensures var rec := R.Required(s.latestEffect.value, s.taskRevision);
            && R.Admissible(rec) && InstallReconciliation(s, rec).Ok?
            && Valid(InstallReconciliation(s, rec).value)
  {
    R.VerdictIsInstallable(s.executionCount, s.latestEffect, satisfied, s.taskRevision);
  }
}
