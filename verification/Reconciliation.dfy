/** One retained effect across a task revision: its assessment, and the bounded requirement to compensate it. */
module Reconciliation {
  import opened Wrappers
  import opened ExecutionContracts

  /** A dispatch-crossing effect; its public reference is a digest of these fields. */
  datatype CommittedEffect = CommittedEffect(
    taskRevision: nat,
    requestId: string,
    resource: string,
    semanticEffects: seq<string>,
    reversibility: Reversibility,
    dispatch: DispatchStatus,
    beforeObservation: string,
    afterObservation: string)

  /** What the effect's constructor accepts. */
  predicate Committed(e: CommittedEffect) {
    e.taskRevision >= 1 && e.dispatch != NotSent
  }

  // ---- assess_effect_revision ----

  datatype Disposition =
    | NoEffect | Compatible | CompensationRequired | NonCompensable | UnknownDisposition | Unsupported

  datatype AssessmentReason =
    | NoCommittedEffect | RevisedGoalAlreadySatisfied | EffectCompensationRequired | EffectNonCompensable
    | EffectDispatchUnknown | EffectLineageMissing | EffectSemanticsUnknown | MultipleEffectsUnsupported

  datatype Assessment = Assessment(disposition: Disposition, reason: AssessmentReason, effect: Option<CommittedEffect>)

  function AssessRevision(executions: nat, latest: Option<CommittedEffect>, satisfied: bool): Assessment {
    if executions == 0 then Assessment(NoEffect, NoCommittedEffect, None)
    else if executions != 1 then Assessment(Unsupported, MultipleEffectsUnsupported, latest)
    else match latest
         case None => Assessment(UnknownDisposition, EffectLineageMissing, None)
         case Some(e) =>
           if satisfied then Assessment(Compatible, RevisedGoalAlreadySatisfied, latest)
           else if e.dispatch == SentUnknown then Assessment(UnknownDisposition, EffectDispatchUnknown, latest)
           else match e.reversibility
                case Reversible => Assessment(CompensationRequired, EffectCompensationRequired, latest)
                case Compensatable => Assessment(CompensationRequired, EffectCompensationRequired, latest)
                case Irreversible => Assessment(NonCompensable, EffectNonCompensable, latest)
                case ReversibilityUnknown => Assessment(UnknownDisposition, EffectSemanticsUnknown, latest)
  }

  predicate ReasonFits(d: Disposition, r: AssessmentReason) {
    match d
    case NoEffect => r.NoCommittedEffect?
    case Compatible => r.RevisedGoalAlreadySatisfied?
    case CompensationRequired => r.EffectCompensationRequired?
    case NonCompensable => r.EffectNonCompensable?
    case UnknownDisposition => r.EffectDispatchUnknown? || r.EffectLineageMissing? || r.EffectSemanticsUnknown?
    case Unsupported => r.MultipleEffectsUnsupported?
  }

  /** The constructor check of an assessment. */
  predicate AdmissibleAssessment(a: Assessment) {
    && ReasonFits(a.disposition, a.reason)
    && (a.disposition.NoEffect? ==> a.effect.None?)
    && (a.disposition.NoEffect? || a.reason.EffectLineageMissing? || a.disposition.Unsupported? || a.effect.Some?)
  }

  // ---- the reconciliation record ----

  datatype Status = Pending | Compensated | NeedsInput

  datatype Reason =
    | CompensationIsRequired | CompensationVerified | CompensationUnavailable | CompensationNotSent
    | CompensationEffectUnknown | CompensationUnverified | CompensationResourceMismatch
    | CompensationActionNotAllowed | CompensationMultipleEffects

  datatype EffectReconciliation = EffectReconciliation(
    original: CommittedEffect,
    revisedRevision: nat,
    status: Status,
    reason: Reason,
    compensation: Option<CommittedEffect>)

  function Required(original: CommittedEffect, revision: nat): EffectReconciliation {
    EffectReconciliation(original, revision, Pending, CompensationIsRequired, None)
  }

  /** The constructor check of a reconciliation. */
  predicate Admissible(r: EffectReconciliation) {
    && r.revisedRevision > r.original.taskRevision
    && r.original.dispatch == Sent
    && (r.original.reversibility == Reversible || r.original.reversibility == Compensatable)
    && (match r.status
        case Pending => r.compensation.None? && r.reason.CompensationIsRequired?
        case Compensated =>
          && r.compensation.Some? && r.reason.CompensationVerified?
          && r.compensation.value.dispatch == Sent && r.compensation.value.resource == r.original.resource
        case NeedsInput => !r.reason.CompensationIsRequired? && !r.reason.CompensationVerified?)
    && (r.compensation.Some? ==> r.compensation.value.taskRevision == r.revisedRevision)
  }

  /** `replace` constructs the record anew, so it raises exactly when the new record is inadmissible. */
  function Checked(r: EffectReconciliation): Result<EffectReconciliation> {
    if Admissible(r) then Ok(r) else Raised
  }

  function RequireInput(r: EffectReconciliation, reason: Reason, effect: Option<CommittedEffect>)
    : Result<EffectReconciliation>
  {
    if r.status != Pending then Raised
    else Checked(r.(status := NeedsInput, reason := reason, compensation := effect))
  }

  function CloseAttempt(r: EffectReconciliation, effect: CommittedEffect, verified: bool): Result<EffectReconciliation>
  {
    if r.status != Pending then Raised
    else if effect.resource != r.original.resource then RequireInput(r, CompensationResourceMismatch, Some(effect))
    else if effect.dispatch == SentUnknown then RequireInput(r, CompensationEffectUnknown, Some(effect))
    else if !verified then RequireInput(r, CompensationUnverified, Some(effect))
    else Checked(r.(status := Compensated, reason := CompensationVerified, compensation := Some(effect)))
  }

  /** Every assessment the classifier builds passes its own constructor. */
  lemma AssessmentsAreAdmissible(executions: nat, latest: Option<CommittedEffect>, satisfied: bool)
    ensures AdmissibleAssessment(AssessRevision(executions, latest, satisfied))
  {
  }

  /** A single committed effect that the revised goal does not already have, of known dispatch. */
  predicate Outstanding(executions: nat, latest: Option<CommittedEffect>, satisfied: bool) {
    executions == 1 && latest.Some? && !satisfied && latest.value.dispatch != SentUnknown
  }

  /** Exactly when each verdict is given, and why nothing is known where nothing is. */
  lemma VerdictsAre(executions: nat, latest: Option<CommittedEffect>, satisfied: bool)
    ensures var a := AssessRevision(executions, latest, satisfied);
            && (a.disposition == NoEffect <==> executions == 0)
            && (a.disposition == Unsupported <==> executions > 1)
            && (a.disposition == Compatible <==> executions == 1 && latest.Some? && satisfied)
            && (a.disposition == CompensationRequired <==>
                  && Outstanding(executions, latest, satisfied)
                  && (latest.value.reversibility == Reversible || latest.value.reversibility == Compensatable))
            && (a.disposition == NonCompensable <==>
                  Outstanding(executions, latest, satisfied) && latest.value.reversibility == Irreversible)
            && (a.reason == EffectSemanticsUnknown <==>
                  Outstanding(executions, latest, satisfied) && latest.value.reversibility == ReversibilityUnknown)
            && (a.reason == EffectDispatchUnknown <==>
                  executions == 1 && latest.Some? && !satisfied && latest.value.dispatch == SentUnknown)
            && (a.reason == EffectLineageMissing <==> executions == 1 && latest.None?)
            && a.effect == if executions == 0 then None else latest
  {
  }

  /** Compensation is demanded exactly when a later revision could lawfully record the demand. */
  lemma VerdictIsInstallable(executions: nat, latest: Option<CommittedEffect>, satisfied: bool, revision: nat)
    requires latest.Some? ==> Committed(latest.value) && revision > latest.value.taskRevision
    ensures AssessRevision(executions, latest, satisfied).disposition == CompensationRequired
       <==> executions == 1 && !satisfied && latest.Some? && Admissible(Required(latest.value, revision))
  {
  }

  // ---- what the constructors accept ----

  /** Every reason belongs to one disposition, and says whether there is an effect to show. */
  lemma AssessmentsAre(a: Assessment)
    ensures AdmissibleAssessment(a) <==>
              match a.reason
              case NoCommittedEffect => a.disposition == NoEffect && a.effect.None?
              case RevisedGoalAlreadySatisfied => a.disposition == Compatible && a.effect.Some?
              case EffectCompensationRequired => a.disposition == CompensationRequired && a.effect.Some?
              case EffectNonCompensable => a.disposition == NonCompensable && a.effect.Some?
              case EffectDispatchUnknown => a.disposition == UnknownDisposition && a.effect.Some?
              case EffectLineageMissing => a.disposition == UnknownDisposition
              case EffectSemanticsUnknown => a.disposition == UnknownDisposition && a.effect.Some?
              case MultipleEffectsUnsupported => a.disposition == Unsupported
  {
  }

  /** A sent effect that can be undone, with the outcome its status calls for, in the later task revision. */
  lemma ReconciliationsAre(r: EffectReconciliation)
    ensures Admissible(r) <==>
              && r.original.dispatch == Sent && r.original.taskRevision < r.revisedRevision
              && r.original.reversibility != Irreversible && r.original.reversibility != ReversibilityUnknown
              && match r.compensation
                 case None =>
                   || (r.status == Pending && r.reason == CompensationIsRequired)
                   || (r.status == NeedsInput && r.reason != CompensationIsRequired && r.reason != CompensationVerified)
                 case Some(e) =>
                   && e.taskRevision == r.revisedRevision
                   && (|| (r.status == Compensated && r.reason == CompensationVerified
                           && e.dispatch == Sent && e.resource == r.original.resource)
                       || (r.status == NeedsInput && r.reason != CompensationIsRequired
                           && r.reason != CompensationVerified))
  {
  }

  /** Only a pending reconciliation can be closed. */
  lemma ClosedStaysClosed(r: EffectReconciliation, effect: CommittedEffect, verified: bool, reason: Reason,
                          found: Option<CommittedEffect>)
    requires r.status != Pending
    ensures CloseAttempt(r, effect, verified) == Raised && RequireInput(r, reason, found) == Raised
  {
  }

  /** Why an attempt failed: the resource before the dispatch before the verification. */
  lemma FailedAttemptsAre(r: EffectReconciliation, effect: CommittedEffect, verified: bool)
    requires Admissible(r) && r.status == Pending
    requires Committed(effect) && effect.taskRevision == r.revisedRevision
    ensures CloseAttempt(r, effect, verified).Ok?
    ensures var c := CloseAttempt(r, effect, verified).value;
            && (c.reason == CompensationResourceMismatch <==> effect.resource != r.original.resource)
            && (c.reason == CompensationEffectUnknown <==>
                  effect.resource == r.original.resource && effect.dispatch == SentUnknown)
            && (c.reason == CompensationUnverified <==>
                  effect.resource == r.original.resource && effect.dispatch == Sent && !verified)
  {
    AttemptCloses(r, effect, verified);
  }

  /** A closing attempt of the revised task never fails a constructor and is judged by the receipt alone. */
  lemma AttemptCloses(r: EffectReconciliation, effect: CommittedEffect, verified: bool)
    requires Admissible(r) && r.status == Pending
    requires Committed(effect) && effect.taskRevision == r.revisedRevision
    ensures CloseAttempt(r, effect, verified).Ok?
    ensures var c := CloseAttempt(r, effect, verified).value;
            && Admissible(c) && c.original == r.original && c.revisedRevision == r.revisedRevision
            && c.compensation == Some(effect) && c.status != Pending
            && (c.status == Compensated
               <==> effect.resource == r.original.resource && effect.dispatch == Sent && verified)
  {
  }
}
