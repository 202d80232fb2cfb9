/**
 The no-progress state machine of one episode: what the monitor remembers, what it reads of a step, and
 what one evaluated step does to it.
 */
module MonitorSpec {
  import opened Wrappers
  import opened TransitionCycle
  import opened ExecutionContracts

  const MAX_SAME_WORLD_CONTROL_DISCOVERY_STEPS := 2
  const RECOVERY_REPEAT_REJECTED := "recovery_repeat_rejected"
  const OBSERVATION_UNAVAILABLE := "observation_unavailable"

  /** The digest functions the monitor composes. Any functions will do. */
  datatype Hashing = Hashing(
    signature: Signature -> Digest,
    transition: (Digest, Digest) -> Digest,
    singleCentre: Digest -> Digest,
    recurrence: (Digest, Digest) -> Digest,
    cycle: seq<Digest> -> Digest)

  /** `PublicAttemptSignature`. */
  datatype Signature = Signature(operation: string, precondition: string, target: string, destination: string,
                                 parameters: string)

  datatype TransitionRecord = TransitionRecord(signature: Signature, resultWorld: Digest)

  datatype RecoveryKind =
    | GroundingStall | EffectStall | UncertainEffect | StateOscillation | StrategyReview | ControlStall
    | CapabilityGapStall

  /** One bounded unresolved no-progress centre. */
  datatype FailureCentre = FailureCentre(digest: Digest, period: nat, members: set<Digest>, kind: RecoveryKind,
                                         armed: bool)

  /** A recovery signal: one-decision feedback, carrying its centre as private monitor state. */
  datatype Signal = Signal(
    kind: RecoveryKind,
    stableSignature: Digest,
    prohibited: seq<Signature>,
    attempt: nat,
    epoch: nat,
    centreDigest: Digest,
    centrePeriod: nat,
    centreMembers: set<Digest>,
    centreArmed: bool)

  // ---- what the monitor reads of a step ----

  datatype Decision =
    | SelectAction
    | RequestObservation
    | RequestActionPage
    | ToolRejected(rejected: Option<Signature>)
    | LocalTool(rejected: Option<Signature>)
    | PolicyFailure
    | OtherDecision

  datatype Receipt = Receipt(dispatch: DispatchStatus, transportSuccess: bool, hasError: bool)

  datatype ObservedChange = Changed | Unchanged | ChangeUnknown

  datatype Outcome = Outcome(change: ObservedChange, postcondition: Postcondition, hasEvidence: bool)

  datatype Delta = NewInformation | NoUsableInformation | NoMatches | NoNewInformation | ExactReplay

  /** The committed step. The two GUI signatures identify the last receipt's intent on the before and after World. */
  datatype Step = Step(
    decision: Decision,
    beforeWorld: Digest,
    afterWorld: Digest,
    beforeFindings: Digest,
    receipts: seq<Receipt>,
    outcome: Option<Outcome>,
    evaluation: Option<EvaluationStatus>,
    feedback: string,
    hasRuntimeFailure: bool,
    hasActionPageResult: bool,
    guiSignature: Signature,
    guiSignatureAfter: Signature,
    ordinarySignature: Signature)

  datatype Event =
    | StateChanged | NoObservedChange | RepeatedAction | Oscillation | ProviderFailure | EnvironmentFailure
    | CapabilityGap

  datatype Recommendation = Continue | Recover | Block
  datatype Reason = NoReason | RecoveryConsumed | ControlStalled | OfKind(kind: RecoveryKind)
  datatype Lifecycle = NoTransition | Started | Closed

  datatype Advice = Advice(
    events: set<Event>, recommendation: Recommendation, reason: Reason, signal: Option<Signal>, lifecycle: Lifecycle)

  // ---- what it remembers ----

  datatype Monitor = Monitor(
    world: Option<Digest>,
    findings: Digest,
    observationOnlyStreak: nat,
    recoveryCount: nat,
    latest: Option<Signature>,
    sameAttemptStreak: nat,
    noProgressCount: nat,
    recent: seq<TransitionRecord>,
    centre: Option<FailureCentre>,
    recovery: Option<Signal>,
    epochs: nat)

  function StartEpisode(world: Digest, findings: Digest): Monitor {
    Monitor(Some(world), findings, 0, 0, None, 0, 0, [], None, None, 0)
  }

  function EndEpisode(m: Monitor): Monitor {
    m.(recovery := None, centre := None)
  }

  // ---- reading a step ----

  predicate GuiDispatched(r: Step) {
    exists i | 0 <= i < |r.receipts| :: r.receipts[i].dispatch != NotSent
  }

  predicate HasOperationalResult(r: Step) {
    && r.outcome.Some? && r.outcome.value.change == Changed
    && (r.outcome.value.postcondition == Satisfied || r.beforeWorld != r.afterWorld)
  }

  function DiagnosticEvents(r: Step): set<Event> {
    if r.decision.PolicyFailure? then {ProviderFailure}
    else if r.hasRuntimeFailure then {EnvironmentFailure}
    else if r.decision.RequestObservation? && OBSERVATION_UNAVAILABLE <= r.feedback then {CapabilityGap}
    else {}
  }

  function GuiAttempt(r: Step): Option<Signature> {
    if r.decision.SelectAction? && r.receipts != [] then Some(r.guiSignature) else None
  }

  /** The ref-free identity of the committed attempt on the current World. */
  function AttemptOf(r: Step): Signature {
    if GuiAttempt(r).Some? then GuiAttempt(r).value
    else match r.decision
         case ToolRejected(Some(s)) => s
         case LocalTool(Some(s)) => s
         case _ => r.ordinarySignature
  }

  function RejectedAttempt(r: Step): Option<Signature> {
    if r.decision.ToolRejected? then r.decision.rejected else None
  }

  /** A hard constraint, only from a sent, verified and stable no-effect. */
  function ProvenFailedAttempt(r: Step): Option<Signature> {
    if GuiAttempt(r).None? || r.outcome.None? then None
    else
      var last, o := r.receipts[|r.receipts| - 1], r.outcome.value;
      if || last.dispatch != Sent || !last.transportSuccess || last.hasError
         || o.change != Unchanged || o.postcondition != Unsatisfied || !o.hasEvidence
         || r.beforeWorld != r.afterWorld
         || r.guiSignatureAfter != r.guiSignature
      then None
      else GuiAttempt(r)
  }

  function Or(first: Option<Signature>, second: Option<Signature>): Option<Signature> {
    if first.Some? then first else second
  }

  function PriorWorld(m: Monitor, r: Step): Digest {
    if m.world.Some? then m.world.value else r.beforeWorld
  }

  function PriorFindings(m: Monitor, r: Step): Digest {
    if m.world.Some? then m.findings else r.beforeFindings
  }

  predicate WorldChanged(m: Monitor, r: Step) {
    r.afterWorld != PriorWorld(m, r)
  }

  predicate AnyChange(m: Monitor, r: Step, findings: Digest, delta: Option<Delta>) {
    WorldChanged(m, r) || findings != PriorFindings(m, r) || delta == Some(NewInformation)
  }

  predicate DurableProgress(r: Step, delta: Option<Delta>) {
    delta == Some(NewInformation) || (GuiDispatched(r) && HasOperationalResult(r))
  }

  // ---- transitions, centres and signals ----

  function TransitionDigest(h: Hashing, t: TransitionRecord): Digest {
    h.transition(h.signature(t.signature), t.resultWorld)
  }

  function Digests(h: Hashing, records: seq<TransitionRecord>): (d: seq<Digest>) {
    seq(|records|, i requires 0 <= i < |records| => TransitionDigest(h, records[i]))
  }

  function Remember(recent: seq<TransitionRecord>, t: TransitionRecord): seq<TransitionRecord> {
    var all := recent + [t];
    if |all| > MAX_RECENT_TRANSITIONS then all[|all| - MAX_RECENT_TRANSITIONS..] else all
  }

  predicate Repeats(h: Hashing, recent: seq<TransitionRecord>, t: TransitionRecord) {
    exists i | 0 <= i < |recent| ::
      h.signature(recent[i].signature) == h.signature(t.signature) && recent[i].resultWorld == t.resultWorld
  }

  function WordMembers(word: seq<Digest>): set<Digest> {
    set d | d in word
  }

  function CycleCentre(h: Hashing, recent: seq<TransitionRecord>): Option<FailureCentre> {
    match RepeatedWord(Digests(h, recent))
    case Some(word) =>
      if word == [] then None
      else Some(FailureCentre(h.cycle(Canonical(word)), |word|, WordMembers(word), StateOscillation, false))
    case None => None
  }

  function SingleCentre(h: Hashing, t: TransitionRecord): FailureCentre {
    FailureCentre(h.singleCentre(TransitionDigest(h, t)), 1, {TransitionDigest(h, t)}, ControlStall, false)
  }

  function RecurrenceCentre(h: Hashing, t: TransitionRecord): FailureCentre {
    FailureCentre(h.recurrence(h.signature(t.signature), t.resultWorld), 1, {TransitionDigest(h, t)}, StateOscillation,
                  false)
  }

  function ControlStallSignal(r: Step, attempt: nat, c: FailureCentre, prohibited: Option<Signature>): Signal {
    var named := Or(prohibited, Or(RejectedAttempt(r), ProvenFailedAttempt(r)));
    Signal(ControlStall, c.digest, if named.Some? then [named.value] else [], attempt, 0,
           c.digest, c.period, c.members, c.armed)
  }

  function CentreSignal(r: Step, attempt: nat, c: FailureCentre, prohibited: Option<Signature>): Signal {
    if c.kind == ControlStall then ControlStallSignal(r, attempt, c, prohibited)
    else Signal(StateOscillation, c.digest, [], attempt, 0, c.digest, c.period, c.members, c.armed)
  }

  // ---- one evaluated step ----

  function ContinueOrClose(events: set<Event>, consumed: Option<Signal>): Advice {
    if consumed.Some? then Advice(events, Continue, RecoveryConsumed, None, Closed)
    else Advice(events, Continue, NoReason, None, NoTransition)
  }

  /** Install one signal for exactly the next decision. */
  function OpenRecovery(m: Monitor, events: set<Event>, recommendation: Recommendation, reason: Reason,
                        candidate: Signal): (Monitor, Advice)
  {
    var signal := candidate.(epoch := m.epochs + 1);
    (m.(epochs := m.epochs + 1, recovery := Some(signal)),
     Advice(events, recommendation, reason, Some(signal), Started))
  }

  function Evaluate(h: Hashing, limit: nat, m: Monitor, r: Step, findings: Digest, delta: Option<Delta>)
    : (Monitor, Advice)
  {
    var events := DiagnosticEvents(r) + {if AnyChange(m, r, findings, delta) then StateChanged else NoObservedChange};
    var seen := m.(recovery := None, recoveryCount := 0, world := Some(r.afterWorld), findings := findings);
    if r.evaluation.None? then
      (seen, ContinueOrClose(events, m.recovery))
    else if r.evaluation.value != Incomplete && r.evaluation.value != Unknown then
      (seen.(observationOnlyStreak := 0, sameAttemptStreak := 0, recent := [], centre := None),
       ContinueOrClose(events, m.recovery))
    else
      Assess(h, limit, m, seen, r, events, findings, delta)
  }

  /** A step on a task that is still open. `before` is the monitor as it entered the step. */
  function Assess(h: Hashing, limit: nat, before: Monitor, seen: Monitor, r: Step, events: set<Event>,
                  findings: Digest, delta: Option<Delta>): (Monitor, Advice)
  {
    var t := TransitionRecord(AttemptOf(r), r.afterWorld);
    var recorded := seen.(recent := Remember(before.recent, t));
    if before.centre.Some? && (DurableProgress(r, delta) || WorldChanged(before, r)) then
      (recorded.(centre := None, observationOnlyStreak := 0, latest := None, sameAttemptStreak := 0),
       ContinueOrClose(events, before.recovery))
    else if before.recovery.Some? && r.feedback == RECOVERY_REPEAT_REJECTED then
      RejectRepeat(h, recorded, r, t, events)
    else if before.centre.Some? then
      Dwell(h, recorded, before.centre.value, r, t, events, before.recovery)
    else
      NoCentre(h, limit, before, recorded, r, t, events, findings, delta)
  }

  /** The policy repeated a prohibited attempt under an outstanding signal. */
  function RejectRepeat(h: Hashing, m: Monitor, r: Step, t: TransitionRecord, events: set<Event>): (Monitor, Advice) {
    var signature := Or(RejectedAttempt(r), Some(t.signature));
    var centre := (if m.centre.Some? then m.centre.value else SingleCentre(h, t)).(armed := true);
    var blocked := m.(centre := Some(centre), noProgressCount := m.noProgressCount + 1, latest := signature,
                      recoveryCount := 2,
                      sameAttemptStreak := if signature == m.latest then m.sameAttemptStreak + 1 else 1);
    OpenRecovery(blocked, events + {RepeatedAction}, Block, ControlStalled,
                 ControlStallSignal(r, 2, centre, RejectedAttempt(r)))
  }

  /** Another step inside an active centre. */
  function Dwell(h: Hashing, m: Monitor, c: FailureCentre, r: Step, t: TransitionRecord, events: set<Event>,
                 consumed: Option<Signal>): (Monitor, Advice)
  {
    var digest := TransitionDigest(h, t);
    if digest in c.members && (c.armed || consumed.Some?) then
      BlockInCentre(m.(noProgressCount := m.noProgressCount + 1, latest := Some(t.signature),
                       sameAttemptStreak := m.sameAttemptStreak + 1),
                    r, events, c, if c.kind == ControlStall then Some(t.signature) else None)
    else if |c.members + {digest}| > MAX_RECENT_TRANSITIONS then
      BlockInCentre(m, r, events, c, None)
    else
      (m.(centre := Some(c.(members := c.members + {digest}, armed := c.armed || consumed.Some?)),
          noProgressCount := m.noProgressCount + 1, latest := Some(t.signature), sameAttemptStreak := 1,
          recoveryCount := 1),
       ContinueOrClose(events, consumed))
  }

  function BlockInCentre(m: Monitor, r: Step, events: set<Event>, c: FailureCentre, prohibited: Option<Signature>)
    : (Monitor, Advice)
  {
    var centre := c.(armed := true);
    OpenRecovery(m.(centre := Some(centre), recoveryCount := 2), events + {Oscillation}, Block, ControlStalled,
                 CentreSignal(r, 2, centre, prohibited))
  }

  /** No active centre: look for the first sign of a stall. `before` is the monitor as it entered the step. */
  function NoCentre(h: Hashing, limit: nat, before: Monitor, m: Monitor, r: Step, t: TransitionRecord,
                    events: set<Event>, findings: Digest, delta: Option<Delta>): (Monitor, Advice)
  {
    if r.decision.ToolRejected? then
      RejectTool(h, m, r, t, events)
    else if Repeats(h, before.recent, t) && WorldChanged(before, r) then
      Oscillates(m, r, t, events, RecurrenceCentre(h, t))
    else if CycleCentre(h, m.recent).Some? then
      Oscillates(m, r, t, events, CycleCentre(h, m.recent).value)
    else if DurableProgress(r, delta) then
      (m.(observationOnlyStreak := 0, latest := None, sameAttemptStreak := 0), ContinueOrClose(events, before.recovery))
    else if GuiDispatched(r) && AnyChange(before, r, findings, delta) then
      (m.(observationOnlyStreak := 0, latest := GuiAttempt(r), sameAttemptStreak := 1),
       ContinueOrClose(events, before.recovery))
    else
      NoProgress(h, limit, m, r, t, events, before.recovery, delta)
  }

  function RejectTool(h: Hashing, m: Monitor, r: Step, t: TransitionRecord, events: set<Event>): (Monitor, Advice)
    requires r.decision.ToolRejected?
  {
    var centre := SingleCentre(h, t);
    OpenRecovery(m.(centre := Some(centre), noProgressCount := m.noProgressCount + 1, latest := Some(t.signature),
                    recoveryCount := 1,
                    sameAttemptStreak := if Some(t.signature) == m.latest then m.sameAttemptStreak + 1 else 1),
                 events + {RepeatedAction}, Recover, OfKind(ControlStall),
                 ControlStallSignal(r, 1, centre, r.decision.rejected))
  }

  function Oscillates(m: Monitor, r: Step, t: TransitionRecord, events: set<Event>, c: FailureCentre): (Monitor, Advice)
  {
    OpenRecovery(m.(observationOnlyStreak := 0, noProgressCount := m.noProgressCount + 1, sameAttemptStreak := 1,
                    latest := Some(t.signature), centre := Some(c), recoveryCount := 1),
                 events + {Oscillation}, Recover, OfKind(StateOscillation), CentreSignal(r, 1, c, None))
  }

  predicate ReplaysExactly(r: Step, delta: Option<Delta>, repeats: bool) {
    delta == Some(ExactReplay) || (repeats && r.decision.RequestActionPage? && r.hasActionPageResult)
  }

  /** `counted` has the streaks already advanced. */
  predicate RecoveryDue(limit: nat, counted: Monitor, r: Step, consumed: Option<Signal>, delta: Option<Delta>,
                        repeats: bool)
  {
    || ReplaysExactly(r, delta, repeats)
    || (consumed.Some? && repeats)
    || delta == Some(NoNewInformation)
    || (delta == Some(NoUsableInformation) && counted.observationOnlyStreak >= 2)
    || (GuiDispatched(r) && counted.sameAttemptStreak >= 2)
    || (r.decision.RequestActionPage? && counted.observationOnlyStreak >= MAX_SAME_WORLD_CONTROL_DISCOVERY_STEPS)
    || (!GuiDispatched(r) && !r.decision.RequestActionPage? && !ReplaysExactly(r, delta, repeats)
        && counted.observationOnlyStreak >= limit)
  }

  function NoProgress(h: Hashing, limit: nat, m: Monitor, r: Step, t: TransitionRecord, events: set<Event>,
                      consumed: Option<Signal>, delta: Option<Delta>): (Monitor, Advice)
  {
    var repeats := Some(t.signature) == m.latest;
    var counted := m.(noProgressCount := m.noProgressCount + 1, latest := Some(t.signature),
                      sameAttemptStreak := if repeats then m.sameAttemptStreak + 1 else 1,
                      observationOnlyStreak := if GuiDispatched(r) || ReplaysExactly(r, delta, repeats) then 0
                                               else m.observationOnlyStreak + 1);
    if !RecoveryDue(limit, counted, r, consumed, delta, repeats) then
      (counted, ContinueOrClose(events, consumed))
    else
      var named := || ReplaysExactly(r, delta, repeats) || delta == Some(NoUsableInformation)
                   || (consumed.Some? && repeats) || (GuiDispatched(r) && repeats);
      OpenStall(h, counted, r, t, events, consumed, named)
  }

  /** The signal is cut before the centre is armed, so a prohibited repetition blocks with an unarmed signal. */
  function OpenStall(h: Hashing, m: Monitor, r: Step, t: TransitionRecord, events: set<Event>, consumed: Option<Signal>,
                     named: bool): (Monitor, Advice)
  {
    var centre := SingleCentre(h, t);
    var prohibited := consumed.Some? && t.signature in consumed.value.prohibited;
    OpenRecovery(m.(recoveryCount := 1, observationOnlyStreak := 0, centre := Some(centre.(armed := prohibited))),
                 events + {RepeatedAction},
                 if prohibited then Block else Recover,
                 if prohibited then ControlStalled else OfKind(ControlStall),
                 ControlStallSignal(r, 1, centre, if named then Some(t.signature) else None))
  }

  // ---- pause and restore ----

  /** The durable projection of the centre and the epoch counter. */
  datatype Snapshot = Snapshot(world: Digest, centre: Option<FailureCentre>, epochs: nat)

  /** `snapshot()`; a digest always exists once the episode has started. */
  function TakeSnapshot(m: Monitor): Snapshot
    requires m.world.Some?
  {
    Snapshot(m.world.value, m.centre, m.epochs)
  }

  /** What the snapshot constructor accepts. */
  predicate AdmissibleSnapshot(s: Snapshot) {
    s.centre.Some? ==> s.centre.value.period >= 1 && 1 <= |s.centre.value.members| <= MAX_RECENT_TRANSITIONS
  }

  function Restore(world: Digest, findings: Digest, signal: Option<Signal>, snapshot: Option<Snapshot>): Monitor {
    var started := StartEpisode(world, findings);
    var m := if snapshot.Some? && snapshot.value.world == world then
               started.(epochs := snapshot.value.epochs, centre := snapshot.value.centre)
             else started;
    match signal
    case None => m
    case Some(s) =>
      m.(recovery := signal,
         recoveryCount := s.attempt,
         latest := if s.prohibited != [] then Some(s.prohibited[|s.prohibited| - 1]) else None,
         sameAttemptStreak := if s.prohibited != [] then 1 else 0,
         centre := if s.centrePeriod >= 1 && s.centreMembers != {} then
                     Some(FailureCentre(s.centreDigest, s.centrePeriod, s.centreMembers, s.kind, s.centreArmed))
                   else m.centre,
         epochs := if s.epoch > m.epochs then s.epoch else m.epochs)
  }
}
