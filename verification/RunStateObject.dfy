/** The mutable run object: one field per fact, updated in place by each transition. */
module RunStateObject {
  import opened Wrappers
  import opened ExecutionContracts
  import opened RunControl
  import opened RunStateSpec
  import opened RunStateTheorems
  import R = Reconciliation

  class Run {
    var worldId: string
    var evaluation: Option<TaskEvaluation>
    var remainingSteps: nat
    var status: RunStatus
    var observationCount: nat
    var executionCount: nat
    var stepCount: nat
    var waitedMs: nat
    const taskRevision: nat
    const goal: GoalResolution
    const planVersions: nat
    var sentUnknown: nat
    var decisionCounts: map<string, nat>
    var finalization: Option<Finalization>
    var deliveryIndex: Option<string>
    var priorDeliveryIndex: Option<string>
    var canonicalWorld: Option<string>
    var projection: Option<Projection>
    var termination: Option<Termination>
    var boundary: Option<Outcome>
    var checkpointId: string
    var pausedFrom: Option<RunStatus>
    var latestEffect: Option<R.CommittedEffect>
    var reconciliation: Option<R.EffectReconciliation>

    function Model(): RunState
      reads this
    {
      RunState(worldId, evaluation, remainingSteps, status, observationCount, executionCount, stepCount, waitedMs,
               taskRevision, goal, planVersions, sentUnknown, decisionCounts, finalization, deliveryIndex,
               priorDeliveryIndex, canonicalWorld, projection, termination, boundary, checkpointId, pausedFrom,
               latestEffect, reconciliation)
    }

    constructor (s: RunState)
      requires Valid(s)
      ensures Model() == s
    {
      worldId, evaluation, remainingSteps, status := s.worldId, s.evaluation, s.remainingSteps, s.status;
      observationCount, executionCount, stepCount, waitedMs := s.observationCount, s.executionCount, s.stepCount,
          s.waitedMs;
      taskRevision, goal, planVersions, sentUnknown := s.taskRevision, s.goal, s.planVersions, s.sentUnknown;
      decisionCounts, finalization := s.decisionCounts, s.finalization;
      deliveryIndex, priorDeliveryIndex, canonicalWorld := s.deliveryIndex, s.priorDeliveryIndex, s.canonicalWorld;
      projection, termination, boundary := s.projection, s.termination, s.boundary;
      checkpointId, pausedFrom, latestEffect, reconciliation := s.checkpointId, s.pausedFrom, s.latestEffect,
          s.reconciliation;
    }

    /** A transition that raises leaves the object as it was. */
    ghost predicate Follows(before: RunState, expected: Result<RunState>, ok: bool)
      reads this
    {
      Ends(before, expected, Model(), ok)
    }

    static ghost predicate Ends(before: RunState, expected: Result<RunState>, after: RunState, ok: bool) {
      match expected
      case Ok(next) => ok && after == next
      case Raised => !ok && after == before
    }

    /** A call that meets its condition keeps the constructor checks of the object. */
    ghost predicate Keeps(before: RunState, op: Op)
      reads this
    {
      KeptFrom(before, op, Model())
    }

    static ghost predicate KeptFrom(before: RunState, op: Op, after: RunState) {
      Valid(before) && AdmissibleOp(op) && CallerKeepsChecks(before, op) ==> Valid(after)
    }

    static lemma EndKeeps(before: RunState, op: Op, expected: Result<RunState>, after: RunState, ok: bool)
      requires expected == RunStateSpec.Perform(before, op) && Ends(before, expected, after, ok)
      ensures KeptFrom(before, op, after)
    {
      if Valid(before) && AdmissibleOp(op) && CallerKeepsChecks(before, op) && expected.Ok? {
        ChecksSurviveExactly(before, op);
      }
    }

    method InstallCanonicalWorld(lineage: string)
      modifies this`projection, this`canonicalWorld
      ensures Model() == WithCanonical(old(Model()), lineage)
      ensures Keeps(old(Model()), InstallCanonicalOp(lineage))
    {
      ghost var before := Model();
      if projection.Some? && projection.value.lineage != lineage {
        projection := None;
      }
      canonicalWorld := Some(lineage);
      EndKeeps(before, InstallCanonicalOp(lineage), Ok(WithCanonical(before, lineage)), Model(), true);
    }

    static method CountUnknownReceipts(receipts: seq<Receipt>) returns (unknown: nat)
      ensures unknown == CountUnknown(receipts)
    {
      unknown := 0;
      for k := 0 to |receipts|
        invariant unknown == CountUnknown(receipts[..k])
      {
        assert receipts[..k + 1][..k] == receipts[..k];
        if receipts[k].dispatch == SentUnknown {
          unknown := unknown + 1;
        }
      }
      assert receipts[..|receipts|] == receipts;
    }

    method CountReceipts(receipts: seq<Receipt>)
      modifies this`executionCount, this`sentUnknown
      ensures executionCount == old(executionCount) + |receipts|
      ensures sentUnknown == old(sentUnknown) + CountUnknown(receipts)
    {
      executionCount := executionCount + |receipts|;
      var unknown := CountUnknownReceipts(receipts);
      sentUnknown := sentUnknown + unknown;
    }

    /** Counts the receipts, commits the last one, and closes a pending reconciliation with it. */
    method CommitReceipts(r: StepResult, rec: Option<R.EffectReconciliation>)
      modifies this`executionCount, this`sentUnknown, this`latestEffect, this`reconciliation
      ensures Model() == ReceiptsCommitted(old(Model()), r, rec)
    {
      CountReceipts(r.receipts);
      reconciliation := rec;
      if r.receipts != [] {
        latestEffect := Some(LastEffect(r, taskRevision));
      }
    }

    /** World, canonical world and the views that belong to one observation. */
    method AdvanceWorld(r: StepResult)
      modifies this`worldId, this`evaluation, this`canonicalWorld, this`projection, this`observationCount,
          this`deliveryIndex, this`priorDeliveryIndex
      ensures Model() == WorldAdvanced(old(Model()), r)
    {
      if r.afterPublicWorld.Some? {
        InstallCanonicalWorld(r.afterPublicWorld.value);
      }
      ReplaceWorld(r);
    }

    method ReplaceWorld(r: StepResult)
      modifies this`worldId, this`evaluation, this`projection, this`observationCount, this`deliveryIndex,
          this`priorDeliveryIndex
      ensures Model() == WorldReplaced(old(Model()), r)
    {
      worldId, evaluation := r.afterId, r.evaluation;
      if r.afterId != r.beforeId {
        LeaveWorld(r.afterDeliveryIndex);
      }
    }

    /** A new observation starts: the views of the old one are dropped or set aside. */
    method LeaveWorld(index: Option<string>)
      modifies this`projection, this`observationCount, this`deliveryIndex, this`priorDeliveryIndex
      ensures observationCount == old(observationCount) + 1 && priorDeliveryIndex == old(deliveryIndex)
      ensures deliveryIndex == index && projection == None
    {
      observationCount := observationCount + 1;
      priorDeliveryIndex := deliveryIndex;
      deliveryIndex := index;
      projection := None;
    }

    /** The status and the control facts the step carries. */
    method AdoptStatus(r: StepResult)
      modifies this`status, this`boundary, this`termination, this`finalization
      ensures Model() == StatusAdopted(old(Model()), r)
    {
      status := r.statusAfter;
      AdoptControl(r);
      if r.finalization.Some? {
        finalization := r.finalization;
      }
    }

    /** A reached boundary, and why the run ended: the step's own reason before the one a cancel gives. */
    method AdoptControl(r: StepResult)
      modifies this`boundary, this`termination
      ensures boundary == if r.boundary.Some? then r.boundary else old(boundary)
      ensures termination == if r.termination.Some? then r.termination
                             else if r.boundary.Some? && r.boundary.value.kind == Cancel then Some(UserCancelled)
                             else old(termination)
    {
      if r.boundary.Some? {
        boundary := r.boundary;
        if r.boundary.value.kind == Cancel {
          termination := Some(UserCancelled);
        }
      }
      if r.termination.Some? {
        termination := r.termination;
      }
    }

    method SpendStep()
      modifies this`remainingSteps, this`stepCount
      ensures remainingSteps == (if old(remainingSteps) > 0 then old(remainingSteps) - 1 else 0)
      ensures stepCount == old(stepCount) + 1
    {
      remainingSteps := if remainingSteps > 0 then remainingSteps - 1 else 0;
      stepCount := stepCount + 1;
    }

    method CountStep(r: StepResult, consume: bool)
      modifies this`remainingSteps, this`stepCount, this`decisionCounts, this`waitedMs
      ensures Model() == StepCounted(old(Model()), r, consume)
    {
      if consume {
        SpendStep();
      }
      decisionCounts := CountDecision(decisionCounts, r.decisionKind);
      waitedMs := waitedMs + r.waitedMs;
    }

    method Apply(r: StepResult, consume: bool) returns (ok: bool)
      modifies this
      ensures Follows(old(Model()), RunStateSpec.Apply(old(Model()), r, consume), ok)
      ensures Keeps(old(Model()), ApplyOp(r, consume))
    {
      ghost var before := Model();
      ok := TryApply(r, consume);
      EndKeeps(before, ApplyOp(r, consume), RunStateSpec.Apply(before, r, consume), Model(), ok);
    }

    method TryApply(r: StepResult, consume: bool) returns (ok: bool)
      modifies this
      ensures Follows(old(Model()), RunStateSpec.Apply(old(Model()), r, consume), ok)
    {
      if status != RunRunning || r.beforeId != worldId {
        return false;
      }
      var rec := Reconciled(Model(), r);
      if rec.Raised? {
        return false;
      }
      Commit(r, consume, rec.value);
      ok := true;
    }

    method Commit(r: StepResult, consume: bool, rec: Option<R.EffectReconciliation>)
      modifies this
      ensures Model() == Advanced(old(Model()), r, consume, rec)
    {
      AdvanceWorld(r);
      AdoptStatus(r);
      CommitReceipts(r, rec);
      CountStep(r, consume);
    }

    method ApplyControlBoundary(o: Outcome) returns (ok: bool)
      modifies this`boundary, this`checkpointId, this`pausedFrom, this`status, this`termination
      ensures Follows(old(Model()), RunStateSpec.ApplyControlBoundary(old(Model()), o), ok)
      ensures Keeps(old(Model()), BoundaryOp(o))
    {
      ghost var before := Model();
      ok := !Terminal(status) && ReachedBoundary(o);
      if ok {
        CommitBoundary(o);
      }
      EndKeeps(before, BoundaryOp(o), RunStateSpec.ApplyControlBoundary(before, o), Model(), ok);
    }

    /** A reached boundary is recorded; a cancel also ends the run. */
    method CommitBoundary(o: Outcome)
      requires !Terminal(status) && ReachedBoundary(o)
      modifies this`boundary, this`checkpointId, this`pausedFrom, this`status, this`termination
      ensures Ok(Model()) == RunStateSpec.ApplyControlBoundary(old(Model()), o)
    {
      boundary := Some(o);
      if o.kind == Cancel {
        EndCancelled();
      }
    }

    method EndCancelled()
      modifies this`checkpointId, this`pausedFrom, this`status, this`termination
      ensures checkpointId == "" && pausedFrom == None && status == RunCancelled && termination == Some(UserCancelled)
    {
      checkpointId, pausedFrom := "", None;
      status := RunCancelled;
      termination := Some(UserCancelled);
    }

    method ResumeControlBoundary() returns (ok: bool)
      modifies this`boundary, this`checkpointId, this`pausedFrom, this`status
      ensures Follows(old(Model()), RunStateSpec.ResumeControlBoundary(old(Model())), ok)
      ensures Keeps(old(Model()), ResumeBoundaryOp)
    {
      ghost var before := Model();
      ok := boundary.Some? && boundary.value.outcome == PauseBoundaryReached
        && (status == RunPaused ==> pausedFrom.Some?);
      if ok {
        LeaveBoundary();
      }
      EndKeeps(before, ResumeBoundaryOp, RunStateSpec.ResumeControlBoundary(before), Model(), ok);
    }

    /** The boundary is cleared, and a durable pause returns to where it paused from. */
    method LeaveBoundary()
      requires boundary.Some? && boundary.value.outcome == PauseBoundaryReached
               && (status == RunPaused ==> pausedFrom.Some?)
      modifies this`boundary, this`checkpointId, this`pausedFrom, this`status
      ensures Ok(Model()) == RunStateSpec.ResumeControlBoundary(old(Model()))
    {
      if status == RunPaused {
        status := pausedFrom.value;
        checkpointId, pausedFrom := "", None;
      }
      boundary := None;
    }

    method CommitDurablePause(id: string) returns (ok: bool)
      modifies this`pausedFrom, this`status, this`checkpointId
      ensures Follows(old(Model()), RunStateSpec.CommitDurablePause(old(Model()), id), ok)
      ensures Keeps(old(Model()), CommitPauseOp(id))
    {
      ghost var before := Model();
      ok := && boundary.Some? && boundary.value.kind == Pause && boundary.value.outcome == PauseBoundaryReached
            && Resumable(status) && CHECKPOINT_PREFIX <= id;
      if ok {
        pausedFrom := Some(status);
        status := RunPaused;
        checkpointId := id;
      }
      EndKeeps(before, CommitPauseOp(id), RunStateSpec.CommitDurablePause(before, id), Model(), ok);
    }

    method Resume(expected: RunStatus) returns (ok: bool)
      modifies this`status
      ensures Follows(old(Model()), ResumeWaiting(old(Model()), expected), ok)
      ensures Keeps(old(Model()), ResumeWaitingOp(expected))
    {
      ghost var before := Model();
      ok := (expected == RunWaitingUser || expected == RunWaitingConfirmation) && status == expected;
      if ok {
        status := RunRunning;
      }
      EndKeeps(before, ResumeWaitingOp(expected), ResumeWaiting(before, expected), Model(), ok);
    }

    method BeginExternalCurrentnessRefresh() returns (ok: bool)
      modifies this`status
      ensures Follows(old(Model()), BeginExternalRefresh(old(Model())), ok)
      ensures Keeps(old(Model()), BeginRefreshOp)
    {
      ghost var before := Model();
      ok := boundary.None? && checkpointId == "" && Resumable(status);
      if ok {
        status := RunRunning;
      }
      EndKeeps(before, BeginRefreshOp, BeginExternalRefresh(before), Model(), ok);
    }

    method InstallEffectReconciliation(rec: R.EffectReconciliation) returns (ok: bool)
      modifies this`reconciliation
      ensures Follows(old(Model()), InstallReconciliation(old(Model()), rec), ok)
      ensures Keeps(old(Model()), InstallReconciliationOp(rec))
    {
      ghost var before := Model();
      ok := rec.revisedRevision == taskRevision && Some(rec.original) == latestEffect && reconciliation.None?;
      if ok {
        reconciliation := Some(rec);
      }
      EndKeeps(before, InstallReconciliationOp(rec), InstallReconciliation(before, rec), Model(), ok);
    }

    method RequireInput(reason: R.Reason, effect: Option<R.CommittedEffect>) returns (ok: bool)
      modifies this`reconciliation
      ensures Follows(old(Model()), RequireReconciliationInput(old(Model()), reason, effect), ok)
      ensures Keeps(old(Model()), RequireInputOp(reason, effect))
    {
      ghost var before := Model();
      ok := false;
      if reconciliation.Some? {
        var closed := R.RequireInput(reconciliation.value, reason, effect);
        if closed.Ok? {
          reconciliation := Some(closed.value);
          ok := true;
        }
      }
      EndKeeps(before, RequireInputOp(reason, effect), RequireReconciliationInput(before, reason, effect), Model(), ok);
    }

    method InstallDeliveryIndex(id: string) returns (ok: bool)
      modifies this`deliveryIndex, this`priorDeliveryIndex
      ensures Follows(old(Model()), RunStateSpec.InstallDeliveryIndex(old(Model()), id), ok)
      ensures Keeps(old(Model()), InstallDeliveryIndexOp(id))
    {
      ghost var before := Model();
      ok := id == worldId;
      if ok {
        deliveryIndex := Some(id);
        priorDeliveryIndex := None;
      }
      EndKeeps(before, InstallDeliveryIndexOp(id), RunStateSpec.InstallDeliveryIndex(before, id), Model(), ok);
    }

    method InstallObservationProjection(p: Projection) returns (ok: bool)
      modifies this`projection
      ensures Follows(old(Model()), InstallProjection(old(Model()), p), ok)
      ensures Keeps(old(Model()), InstallProjectionOp(p))
    {
      ghost var before := Model();
      ok := p.observationId == worldId && canonicalWorld == Some(p.lineage);
      if ok {
        projection := Some(p);
      }
      EndKeeps(before, InstallProjectionOp(p), InstallProjection(before, p), Model(), ok);
    }
  }
}
