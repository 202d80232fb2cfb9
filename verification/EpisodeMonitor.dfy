/** The monitor object itself: its fields, and methods that update them in place. */
module EpisodeMonitors {
  import opened Wrappers
  import opened TransitionCycle
  import opened ExecutionContracts
  import opened MonitorSpec
  import opened MonitorTheorems

  class EpisodeMonitor {
    const hashing: Hashing
    const maxConsecutiveObservationOnly: nat
    var worldDigest: Option<Digest>
    var currentFindingsDigest: Digest
    var observationOnlyStreak: nat
    var recoveryCount: nat
    var latestAttemptSignature: Option<Signature>
    var sameAttemptStreak: nat
    var noProgressCount: nat
    var recentTransitions: seq<TransitionRecord>
    var activeFailureCentre: Option<FailureCentre>
    var activeRecovery: Option<Signal>
    var recoveryEpochCounter: nat

    function Model(): Monitor
      reads this
    {
      Monitor(worldDigest, currentFindingsDigest, observationOnlyStreak, recoveryCount, latestAttemptSignature,
              sameAttemptStreak, noProgressCount, recentTransitions, activeFailureCentre, activeRecovery,
                  recoveryEpochCounter)
    }

    constructor (hashing: Hashing, maxConsecutiveObservationOnly: nat, world: Digest, findings: Digest)
      ensures this.hashing == hashing && this.maxConsecutiveObservationOnly == maxConsecutiveObservationOnly
      ensures Model() == MonitorSpec.StartEpisode(world, findings) && Inv(Model())
    {
      this.hashing := hashing;
      this.maxConsecutiveObservationOnly := maxConsecutiveObservationOnly;
      worldDigest, currentFindingsDigest := Some(world), findings;
      observationOnlyStreak, recoveryCount, sameAttemptStreak, noProgressCount := 0, 0, 0, 0;
      latestAttemptSignature, recentTransitions := None, [];
      activeFailureCentre, activeRecovery, recoveryEpochCounter := None, None, 0;
    }

    method StartEpisode(world: Digest, findings: Digest)
      modifies this
      ensures Model() == MonitorSpec.StartEpisode(world, findings) && Inv(Model())
    {
      worldDigest, currentFindingsDigest := Some(world), findings;
      observationOnlyStreak, recoveryCount, sameAttemptStreak, noProgressCount := 0, 0, 0, 0;
      latestAttemptSignature, recentTransitions := None, [];
      activeFailureCentre, activeRecovery, recoveryEpochCounter := None, None, 0;
    }

    method EndEpisode()
      modifies this
      ensures Model() == MonitorSpec.EndEpisode(old(Model()))
      ensures old(Inv(Model())) ==> Inv(Model())
    {
      activeRecovery, activeFailureCentre := None, None;
    }

    method TakeSnapshot() returns (snapshot: Snapshot)
      requires worldDigest.Some?
      ensures snapshot == MonitorSpec.TakeSnapshot(Model())
      ensures Inv(Model()) ==> AdmissibleSnapshot(snapshot)
    {
      snapshot := Snapshot(worldDigest.value, activeFailureCentre, recoveryEpochCounter);
    }

    method RestoreEpisode(world: Digest, findings: Digest, signal: Option<Signal>, snapshot: Option<Snapshot>)
      modifies this
      ensures Model() == Restore(world, findings, signal, snapshot)
    {
      StartEpisode(world, findings);
      if snapshot.Some? && snapshot.value.world == world {
        recoveryEpochCounter := snapshot.value.epochs;
        if snapshot.value.centre.Some? {
          activeFailureCentre := snapshot.value.centre;
        }
      }
      if signal.None? {
        return;
      }
      var s := signal.value;
      activeRecovery := signal;
      recoveryCount := s.attempt;
      if s.prohibited != [] {
        latestAttemptSignature := Some(s.prohibited[|s.prohibited| - 1]);
        sameAttemptStreak := 1;
      }
      if s.centrePeriod >= 1 && s.centreMembers != {} {
        activeFailureCentre := Some(FailureCentre(s.centreDigest, s.centrePeriod, s.centreMembers, s.kind,
                                                  s.centreArmed));
      }
      if s.epoch > recoveryEpochCounter {
        recoveryEpochCounter := s.epoch;
      }
    }

    method OpenRecovery(events: set<Event>, recommendation: Recommendation, reason: Reason, candidate: Signal)
      returns (advice: Advice)
      requires activeRecovery.None?
      modifies this
      ensures (Model(), advice) == MonitorSpec.OpenRecovery(old(Model()), events, recommendation, reason, candidate)
    {
      recoveryEpochCounter := recoveryEpochCounter + 1;
      var signal := candidate.(epoch := recoveryEpochCounter);
      activeRecovery := Some(signal);
      advice := Advice(events, recommendation, reason, Some(signal), Started);
    }

    /** Records one transition and reports whether it recurs, and whether it closes a cycle. */
    method RecordTransition(t: TransitionRecord) returns (repeats: bool, cycle: Option<FailureCentre>)
      modifies this`recentTransitions
      ensures repeats == Repeats(hashing, old(recentTransitions), t)
      ensures recentTransitions == Remember(old(recentTransitions), t)
      ensures cycle == CycleCentre(hashing, recentTransitions)
    {
      repeats := Repeats(hashing, recentTransitions, t);
      recentTransitions := Remember(recentTransitions, t);
      var word := ShortestRepeat(Digests(hashing, recentTransitions));
      cycle := None;
      if word.Some? && word.value != [] {
        cycle := Some(FailureCentre(hashing.cycle(Canonical(word.value)), |word.value|, WordMembers(word.value),
                                    StateOscillation, false));
      }
    }

    /** Consumes the outstanding signal and advances the two digests. */
    method Observe(r: Step, findings: Digest, delta: Option<Delta>)
      returns (consumed: Option<Signal>, worldChanged: bool, stateChanged: bool)
      modifies this
      ensures Model()
              == old(Model()).(recovery := None, recoveryCount := 0, world := Some(r.afterWorld), findings := findings)
      ensures consumed == old(activeRecovery)
      ensures worldChanged == WorldChanged(old(Model()), r)
      ensures stateChanged == AnyChange(old(Model()), r, findings, delta)
    {
      consumed := activeRecovery;
      activeRecovery, recoveryCount := None, 0;
      if worldDigest.None? {
        worldDigest, currentFindingsDigest := Some(r.beforeWorld), r.beforeFindings;
      }
      worldChanged := r.afterWorld != worldDigest.value;
      stateChanged := worldChanged || findings != currentFindingsDigest || delta == Some(NewInformation);
      worldDigest, currentFindingsDigest := Some(r.afterWorld), findings;
    }

    method Evaluate(r: Step, findings: Digest, delta: Option<Delta>) returns (advice: Advice)
      modifies this
      ensures (Model(), advice)
              == MonitorSpec.Evaluate(hashing, maxConsecutiveObservationOnly, old(Model()), r, findings, delta)
      ensures old(Inv(Model())) ==>
                (Inv(Model()) <==> r.evaluation.Some? || old(Model()).centre.None? || old(Model()).centre.value.armed)
    {
      ghost var before := Model();
      advice := EvaluateStep(r, findings, delta);
      if Inv(before) {
        InvIsKeptExactly(hashing, maxConsecutiveObservationOnly, before, Input(r, findings, delta));
      }
    }

    method EvaluateStep(r: Step, findings: Digest, delta: Option<Delta>) returns (advice: Advice)
      modifies this
      ensures (Model(), advice)
              == MonitorSpec.Evaluate(hashing, maxConsecutiveObservationOnly, old(Model()), r, findings, delta)
    {
      ghost var before := Model();
      var consumed, worldChanged, stateChanged := Observe(r, findings, delta);
      var events := DiagnosticEvents(r) + {if stateChanged then StateChanged else NoObservedChange};
      if r.evaluation.None? {
        return ContinueOrClose(events, consumed);
      }
      if r.evaluation.value != Incomplete && r.evaluation.value != Unknown {
        observationOnlyStreak, sameAttemptStreak, recentTransitions := 0, 0, [];
        activeFailureCentre := None;
        return ContinueOrClose(events, consumed);
      }
      advice := Assess(r, events, delta, consumed, worldChanged, stateChanged, before, findings);
    }

    /** An open task: record the transition, then leave, keep or open a failure centre. */
    method Assess(r: Step, events: set<Event>, delta: Option<Delta>, consumed: Option<Signal>, worldChanged: bool,
                  stateChanged: bool, ghost before: Monitor, ghost findings: Digest)
      returns (advice: Advice)
      requires activeRecovery.None? && consumed == before.recovery
      requires recentTransitions == before.recent && activeFailureCentre == before.centre
      requires worldChanged == WorldChanged(before, r) && stateChanged == AnyChange(before, r, findings, delta)
      modifies this
      ensures (Model(), advice) == MonitorSpec.Assess(hashing, maxConsecutiveObservationOnly, before, old(Model()), r,
                                                      events, findings, delta)
    {
      var t := TransitionRecord(AttemptOf(r), r.afterWorld);
      var durable := DurableProgress(r, delta);
      var repeats, cycle := RecordTransition(t);
      if activeFailureCentre.Some? && (durable || worldChanged) {
        activeFailureCentre, latestAttemptSignature := None, None;
        observationOnlyStreak, sameAttemptStreak := 0, 0;
        return ContinueOrClose(events, consumed);
      }
      if consumed.Some? && r.feedback == RECOVERY_REPEAT_REJECTED {
        advice := RejectRepeat(r, t, events);
      } else if activeFailureCentre.Some? {
        advice := Dwell(r, t, events, consumed);
      } else {
        advice := NoCentre(r, t, events, repeats && worldChanged, cycle, durable, stateChanged, delta, consumed,
                           before, findings);
      }
    }

    method RejectRepeat(r: Step, t: TransitionRecord, events: set<Event>) returns (advice: Advice)
      requires activeRecovery.None?
      modifies this
      ensures (Model(), advice) == MonitorSpec.RejectRepeat(hashing, old(Model()), r, t, events)
    {
      var signature := Or(RejectedAttempt(r), Some(t.signature));
      var centre := if activeFailureCentre.Some? then activeFailureCentre.value else SingleCentre(hashing, t);
      activeFailureCentre := Some(centre.(armed := true));
      noProgressCount := noProgressCount + 1;
      sameAttemptStreak := if signature == latestAttemptSignature then sameAttemptStreak + 1 else 1;
      latestAttemptSignature := signature;
      recoveryCount := 2;
      advice := OpenRecovery(events + {RepeatedAction}, Block, ControlStalled,
                             ControlStallSignal(r, 2, activeFailureCentre.value, RejectedAttempt(r)));
    }

    method Dwell(r: Step, t: TransitionRecord, events: set<Event>, consumed: Option<Signal>) returns (advice: Advice)
      requires activeRecovery.None? && activeFailureCentre.Some?
      modifies this
      ensures (Model(), advice) ==
                MonitorSpec.Dwell(hashing, old(Model()), old(activeFailureCentre.value), r, t, events, consumed)
    {
      var c := activeFailureCentre.value;
      var digest := TransitionDigest(hashing, t);
      if digest in c.members && (c.armed || consumed.Some?) {
        noProgressCount := noProgressCount + 1;
        latestAttemptSignature := Some(t.signature);
        sameAttemptStreak := sameAttemptStreak + 1;
        advice := BlockInCentre(r, events, c, if c.kind == ControlStall then Some(t.signature) else None);
        return;
      }
      var members := c.members + {digest};
      if |members| > MAX_RECENT_TRANSITIONS {
        advice := BlockInCentre(r, events, c, None);
        return;
      }
      ExtendCentre(c.(members := members, armed := c.armed || consumed.Some?), t);
      advice := ContinueOrClose(events, consumed);
    }

    /** Another member joins the centre, which is armed from now on. */
    method ExtendCentre(c: FailureCentre, t: TransitionRecord)
      modifies this
      ensures Model() == old(Model()).(centre := Some(c), noProgressCount := old(noProgressCount) + 1,
                                       latest := Some(t.signature), sameAttemptStreak := 1, recoveryCount := 1)
    {
      activeFailureCentre := Some(c);
      noProgressCount := noProgressCount + 1;
      latestAttemptSignature := Some(t.signature);
      sameAttemptStreak := 1;
      recoveryCount := 1;
    }

    method BlockInCentre(r: Step, events: set<Event>, c: FailureCentre, prohibited: Option<Signature>)
      returns (advice: Advice)
      requires activeRecovery.None?
      modifies this
      ensures (Model(), advice) == MonitorSpec.BlockInCentre(old(Model()), r, events, c, prohibited)
    {
      recoveryCount := 2;
      activeFailureCentre := Some(c.(armed := true));
      advice := OpenRecovery(events + {Oscillation}, Block, ControlStalled,
                             CentreSignal(r, 2, activeFailureCentre.value, prohibited));
    }

    method RejectTool(r: Step, t: TransitionRecord, events: set<Event>) returns (advice: Advice)
      requires activeRecovery.None? && r.decision.ToolRejected?
      modifies this
      ensures (Model(), advice) == MonitorSpec.RejectTool(hashing, old(Model()), r, t, events)
    {
      noProgressCount := noProgressCount + 1;
      sameAttemptStreak := if Some(t.signature) == latestAttemptSignature then sameAttemptStreak + 1 else 1;
      latestAttemptSignature := Some(t.signature);
      recoveryCount := 1;
      activeFailureCentre := Some(SingleCentre(hashing, t));
      advice := OpenRecovery(events + {RepeatedAction}, Recover, OfKind(ControlStall),
                             ControlStallSignal(r, 1, activeFailureCentre.value, r.decision.rejected));
    }

    method Oscillates(r: Step, t: TransitionRecord, events: set<Event>, c: FailureCentre) returns (advice: Advice)
      requires activeRecovery.None?
      modifies this
      ensures (Model(), advice) == MonitorSpec.Oscillates(old(Model()), r, t, events, c)
    {
      observationOnlyStreak := 0;
      noProgressCount := noProgressCount + 1;
      sameAttemptStreak := 1;
      latestAttemptSignature := Some(t.signature);
      activeFailureCentre := Some(c);
      recoveryCount := 1;
      advice := OpenRecovery(events + {Oscillation}, Recover, OfKind(StateOscillation), CentreSignal(r, 1, c, None));
    }

    method NoCentre(r: Step, t: TransitionRecord, events: set<Event>, recurs: bool, cycle: Option<FailureCentre>,
                    durable: bool, stateChanged: bool, delta: Option<Delta>, consumed: Option<Signal>,
                    ghost before: Monitor, ghost findings: Digest)
      returns (advice: Advice)
      requires activeRecovery.None?
      requires recurs == (Repeats(hashing, before.recent, t) && WorldChanged(before, r)) && consumed == before.recovery
      requires cycle == CycleCentre(hashing, recentTransitions) && durable == DurableProgress(r, delta)
      requires stateChanged == AnyChange(before, r, findings, delta)
      modifies this
      ensures (Model(), advice)
              == MonitorSpec.NoCentre(hashing, maxConsecutiveObservationOnly, before, old(Model()), r, t,
                                                        events, findings, delta)
    {
      if r.decision.ToolRejected? {
        advice := RejectTool(r, t, events);
      } else if recurs {
        advice := Oscillates(r, t, events, RecurrenceCentre(hashing, t));
      } else if cycle.Some? {
        advice := Oscillates(r, t, events, cycle.value);
      } else if durable {
        observationOnlyStreak, sameAttemptStreak, latestAttemptSignature := 0, 0, None;
        advice := ContinueOrClose(events, consumed);
      } else if GuiDispatched(r) && stateChanged {
        observationOnlyStreak, sameAttemptStreak, latestAttemptSignature := 0, 1, GuiAttempt(r);
        advice := ContinueOrClose(events, consumed);
      } else {
        advice := NoProgress(r, t, events, consumed, delta);
      }
    }

    method NoProgress(r: Step, t: TransitionRecord, events: set<Event>, consumed: Option<Signal>, delta: Option<Delta>)
      returns (advice: Advice)
      requires activeRecovery.None?
      modifies this
      ensures (Model(), advice) == MonitorSpec.NoProgress(hashing, maxConsecutiveObservationOnly, old(Model()), r, t,
                                                          events, consumed, delta)
    {
      var repeats := Some(t.signature) == latestAttemptSignature;
      var exactReplay := ReplaysExactly(r, delta, repeats);
      noProgressCount := noProgressCount + 1;
      sameAttemptStreak := if repeats then sameAttemptStreak + 1 else 1;
      latestAttemptSignature := Some(t.signature);
      observationOnlyStreak := if GuiDispatched(r) || exactReplay then 0 else observationOnlyStreak + 1;
      if !RecoveryDue(maxConsecutiveObservationOnly, Model(), r, consumed, delta, repeats) {
        return ContinueOrClose(events, consumed);
      }
      var named := || exactReplay || delta == Some(NoUsableInformation)
                   || (consumed.Some? && repeats) || (GuiDispatched(r) && repeats);
      advice := OpenStall(r, t, events, consumed, named);
    }

    method OpenStall(r: Step, t: TransitionRecord, events: set<Event>, consumed: Option<Signal>, named: bool)
      returns (advice: Advice)
      requires activeRecovery.None?
      modifies this
      ensures (Model(), advice) == MonitorSpec.OpenStall(hashing, old(Model()), r, t, events, consumed, named)
    {
      recoveryCount, observationOnlyStreak := 1, 0;
      var centre := SingleCentre(hashing, t);
      activeFailureCentre := Some(centre);
      var signal := ControlStallSignal(r, 1, centre, if named then Some(t.signature) else None);
      var prohibited := consumed.Some? && t.signature in consumed.value.prohibited;
      if prohibited {
        activeFailureCentre := Some(centre.(armed := true));
      }
      advice := OpenRecovery(events + {RepeatedAction}, if prohibited then Block else Recover,
                             if prohibited then ControlStalled else OfKind(ControlStall), signal);
    }
  }
}
