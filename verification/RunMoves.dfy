/** Each move of a run in plain terms: when it is made, what it leaves, and which moves undo each other. */
module RunMoves {
  import opened Wrappers
  import opened ExecutionContracts
  import opened RunStateSpec
  import opened RunStateTheorems
  import RunControl
  import R = Reconciliation

  // ---- what the constructor accepts ----

  /** How a run with the native verdict of its finalisation must have ended. */
  predicate EndsAs(native: Option<EvaluationStatus>, status: RunStatus) {
    match status
    case RunDone => native == Some(Complete)
    case RunBlocked => native == Some(Blocked)
    case RunCancelled => native == None
    case RunFailed => native == None || native == Some(Incomplete) || native == Some(Unknown)
    case _ => false
  }

  /** A pause or cancel that was reached, as opposed to one superseded, resumed or failed. */
  predicate Reached(o: RunControl.Outcome) {
    (o.kind == RunControl.Pause && o.outcome == RunControl.PauseBoundaryReached)
    || (o.kind == RunControl.Cancel && o.outcome == RunControl.Cancelled)
  }

  lemma EndsAsIs(f: Finalization, status: RunStatus, o: RunControl.Outcome)
    ensures FinalizationFits(f, status) <==> EndsAs(f.native, status)
    ensures ReachedBoundary(o) <==> Reached(o)
  {
  }

  /** Everything the run holds of a world is of the current one. */
  ghost predicate HoldsOneWorld(s: RunState) {
    && (match s.evaluation
        case Some(e) => e.observationId == s.worldId
        case None => s.status == RunFailed || s.status == RunCancelled)
    && (match s.finalization
        case Some(f) =>
          && EndsAs(f.native, s.status)
          && (f.postStopObservationId == "" || f.postStopObservationId == s.worldId)
          && (f.native.None? || s.evaluation.None? || f.native.value == s.evaluation.value.status)
        case None => true)
    && (s.deliveryIndex == None || s.deliveryIndex == Some(s.worldId))
    && (match s.projection
        case Some(p) => p.observationId == s.worldId && s.canonicalWorld == Some(p.lineage)
        case None => true)
  }

  /** What the run holds of its task is of the current revision. */
  ghost predicate HoldsOneTask(s: RunState) {
    && (match s.goal
        case Ready(revision, version) => revision == s.taskRevision && version <= s.planVersions
        case NoPlan => true)
    && (match s.latestEffect
        case Some(e) =>
          s.executionCount > 0 && 1 <= e.taskRevision <= s.taskRevision && e.dispatch != NotSent
        case None => true)
    && (match s.reconciliation
        case Some(r) =>
          && R.Admissible(r) && r.revisedRevision == s.taskRevision
          && (if r.status == R.Pending then s.latestEffect == Some(r.original)
              else r.compensation.None? || s.latestEffect == r.compensation)
        case None => true)
  }

  /** A durable pause is complete, and no other run has any part of one. */
  ghost predicate HoldsOnePause(s: RunState) {
    && (s.boundary.Some? ==> Reached(s.boundary.value))
    && (s.status == RunPaused <==> s.pausedFrom.Some?)
    && (if s.pausedFrom.Some? then
          && s.boundary.Some? && s.boundary.value.kind == RunControl.Pause
          && "runtime-checkpoint:" <= s.checkpointId
          && s.pausedFrom.value in {RunRunning, RunWaitingUser, RunWaitingConfirmation}
        else s.checkpointId == "")
  }

  /** The constructor checks, grouped by what the state holds. */
  lemma ValidIs(s: RunState)
    ensures Valid(s) <==>
              s.observationCount > 0 && s.taskRevision > 0 && HoldsOneWorld(s) && HoldsOneTask(s) && HoldsOnePause(s)
  {
  }

  /** What a step may say of itself. */
  lemma AdmissibleStepIs(r: StepResult)
    ensures AdmissibleStep(r) <==>
              && (match r.evaluation
                  case Some(e) => e.observationId == r.afterId
                  case None => r.statusAfter == RunCancelled || (r.statusAfter == RunFailed && r.evaluationFailed))
              && (r.termination.None? || r.statusAfter in {RunBlocked, RunCancelled, RunFailed})
              && (match r.boundary
                  case None => true
                  case Some(o) =>
                    || (o.outcome == RunControl.Cancelled && r.statusAfter == RunCancelled)
                    || (o.outcome == RunControl.PauseBoundaryReached
                        && r.statusAfter in {RunRunning, RunWaitingUser, RunWaitingConfirmation}))
              && (r.afterDeliveryIndex.None? || r.afterDeliveryIndex.value == r.afterId)
              && (match r.finalization
                  case None => true
                  case Some(f) =>
                    && EndsAs(f.native, r.statusAfter)
                    && (if f.postStopObservationId == "" then r.afterId == r.beforeId
                        else f.postStopObservationId == r.afterId)
                    && (f.native.None? || r.evaluation.None? || f.native.value == r.evaluation.value.status))
              && forall receipt | receipt in r.receipts :: receipt.dispatch != NotSent
  {
    forall i | 0 <= i < |r.receipts| ensures r.receipts[i] in r.receipts {
    }
  }

  // ---- an applied step ----

  /** Status and control facts: a stop reason of the step itself counts before that of a cancel. */
  lemma StepControls(s: RunState, r: StepResult, consume: bool)
    requires Apply(s, r, consume).Ok?
    ensures var n := Apply(s, r, consume).value;
            && s.status == RunRunning && s.worldId == r.beforeId && n.status == r.statusAfter
            && n.boundary == (if r.boundary.None? then s.boundary else r.boundary)
            && (r.termination.Some? ==> n.termination == r.termination)
            && (r.termination.None? && r.boundary.Some? && r.boundary.value.kind == RunControl.Cancel ==>
                  n.termination == Some(UserCancelled))
            && (r.termination.None? && (r.boundary.None? || r.boundary.value.kind == RunControl.Pause) ==>
                  n.termination == s.termination)
            && n.checkpointId == s.checkpointId && n.pausedFrom == s.pausedFrom
  {
  }

  /** The views of a world go with it: a new one has its own index, sets the old one aside and has no projection yet. */
  lemma StepViews(s: RunState, r: StepResult, consume: bool)
    requires Apply(s, r, consume).Ok?
    ensures var n := Apply(s, r, consume).value;
            && n.canonicalWorld == (if r.afterPublicWorld.None? then s.canonicalWorld else r.afterPublicWorld)
            && (r.afterId != r.beforeId ==>
                  && n.deliveryIndex == r.afterDeliveryIndex && n.priorDeliveryIndex == s.deliveryIndex
                  && n.projection == None)
            && (r.afterId == r.beforeId ==>
                  && n.deliveryIndex == s.deliveryIndex && n.priorDeliveryIndex == s.priorDeliveryIndex
                  && n.projection == if || s.projection.None? || r.afterPublicWorld.None?
                                        || s.projection.value.lineage == r.afterPublicWorld.value
                                     then s.projection else None)
  {
  }

  // ---- pause and resume ----

  /** Exactly when a pause becomes durable. */
  lemma PauseIsCommitted(s: RunState, id: string)
    ensures CommitDurablePause(s, id).Ok? <==>
              && s.boundary.Some? && s.boundary.value.kind == RunControl.Pause && Reached(s.boundary.value)
              && s.status in {RunRunning, RunWaitingUser, RunWaitingConfirmation}
              && "runtime-checkpoint:" <= id
    ensures CommitDurablePause(s, id).Ok? ==>
              Valid(s) ==> Valid(CommitDurablePause(s, id).value)
                           && CommitDurablePause(s, id).value.status == RunPaused
  {
    if CommitDurablePause(s, id).Ok? && Valid(s) {
      ChecksSurviveExactly(s, CommitPauseOp(id));
    }
  }

  /** A durable pause comes back to where it paused from, and nothing but the boundary is gone. */
  lemma PauseRoundTrip(s: RunState, id: string)
    requires Valid(s) && CommitDurablePause(s, id).Ok?
    ensures ResumeControlBoundary(CommitDurablePause(s, id).value) == Ok(s.(boundary := None))
  {
  }

  /** Exactly when a boundary is resumed. */
  lemma BoundaryIsResumed(s: RunState)
    requires Valid(s)
    ensures ResumeControlBoundary(s).Ok? <==> s.boundary.Some? && s.boundary.value.kind == RunControl.Pause
    ensures ResumeControlBoundary(s).Ok? ==>
              ResumeControlBoundary(s).value.boundary == None && ResumeControlBoundary(s).value.pausedFrom == None
  {
  }

  /** A reached boundary is taken on by every run that has not ended; a cancel ends it, whatever it was doing. */
  lemma BoundaryIsTaken(s: RunState, o: RunControl.Outcome)
    ensures ApplyControlBoundary(s, o).Ok? <==>
              && s.status in {RunRunning, RunPaused, RunWaitingUser, RunWaitingConfirmation} && Reached(o)
    ensures ApplyControlBoundary(s, o).Ok? && o.kind == RunControl.Pause ==>
              ApplyControlBoundary(s, o).value == s.(boundary := Some(o))
    ensures ApplyControlBoundary(s, o).Ok? && o.kind == RunControl.Cancel ==>
              var n := ApplyControlBoundary(s, o).value;
              && n.status == RunCancelled && n.termination == Some(UserCancelled) && n.boundary == Some(o)
              && n.checkpointId == "" && n.pausedFrom == None
              && n.(status := s.status, termination := s.termination, boundary := s.boundary,
                    checkpointId := s.checkpointId, pausedFrom := s.pausedFrom) == s
  {
  }

  /** A waiting run goes on when it is resumed from the status it waits in; a refresh makes any resumable run go on. */
  lemma WaitingGoesOn(s: RunState, expected: RunStatus)
    ensures ResumeWaiting(s, expected).Ok? <==>
              s.status == expected && (expected == RunWaitingUser || expected == RunWaitingConfirmation)
    ensures BeginExternalRefresh(s).Ok? <==>
              && s.status in {RunRunning, RunWaitingUser, RunWaitingConfirmation}
              && s.boundary.None? && s.checkpointId == ""
    ensures ResumeWaiting(s, expected).Ok? ==> ResumeWaiting(s, expected).value == s.(status := RunRunning)
    ensures BeginExternalRefresh(s).Ok? ==> BeginExternalRefresh(s).value == s.(status := RunRunning)
  {
  }

  // ---- what is installed ----

  /** Nothing of another world, lineage or revision can be installed, and a demand only where there is none. */
  lemma OnlyCurrentIsInstalled(s: RunState, id: string, p: Projection, rec: R.EffectReconciliation)
    ensures InstallDeliveryIndex(s, id).Ok? <==> id == s.worldId
    ensures InstallProjection(s, p).Ok? <==> p.observationId == s.worldId && s.canonicalWorld == Some(p.lineage)
    ensures InstallReconciliation(s, rec).Ok? <==>
              s.reconciliation == None && s.latestEffect == Some(rec.original) && rec.revisedRevision == s.taskRevision
    ensures InstallDeliveryIndex(s, id).Ok? ==>
              InstallDeliveryIndex(s, id).value == s.(deliveryIndex := Some(s.worldId), priorDeliveryIndex := None)
    ensures InstallProjection(s, p).Ok? ==> InstallProjection(s, p).value == s.(projection := Some(p))
    ensures InstallReconciliation(s, rec).Ok? ==>
              InstallReconciliation(s, rec).value == s.(reconciliation := Some(rec))
  {
  }

  /** A new canonical world drops a projection of another lineage. */
  lemma CanonicalIsInstalled(s: RunState, lineage: string)
    ensures WithCanonical(s, lineage).canonicalWorld == Some(lineage)
    ensures WithCanonical(s, lineage).projection ==
              if s.projection.Some? && s.projection.value.lineage == lineage then s.projection else None
    ensures WithCanonical(s, lineage).(canonicalWorld := s.canonicalWorld, projection := s.projection) == s
  {
  }
}
