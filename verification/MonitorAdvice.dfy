/**
 What one step is advised, for every monitor and every step, in terms of what the step did and what the monitor
 remembers of earlier ones; and what that means for a run that repeats one attempt.
 */
module MonitorAdvice {
  import opened Wrappers
  import opened TransitionCycle
  import opened ExecutionContracts
  import opened MonitorSpec
  import opened MonitorTheorems

  // ---- a step in plain terms ----

  /** Some receipt of the step reached the interface, or may have. */
  ghost predicate Acted(r: Step) {
    exists receipt | receipt in r.receipts :: receipt.dispatch == Sent || receipt.dispatch == SentUnknown
  }

  /** The task is still open. */
  ghost predicate Open(r: Step) {
    r.evaluation == Some(Incomplete) || r.evaluation == Some(Unknown)
  }

  /** The step left the world the monitor knew. */
  ghost predicate Moved(m: Monitor, r: Step) {
    r.afterWorld != match m.world case Some(world) => world case None => r.beforeWorld
  }

  ghost predicate LearnedSomething(m: Monitor, i: Input) {
    i.findings != if m.world.Some? then m.findings else i.step.beforeFindings
  }

  /** New information, or an action whose observed change met its postcondition or moved the world. */
  ghost predicate Durable(i: Input) {
    || i.delta == Some(NewInformation)
    || (Acted(i.step) && i.step.outcome.Some? && i.step.outcome.value.change == Changed
        && (i.step.outcome.value.postcondition == Satisfied || i.step.afterWorld != i.step.beforeWorld))
  }

  /** A recorded transition had the same attempt and the same result. */
  ghost predicate SeenBefore(h: Hashing, m: Monitor, r: Step) {
    exists t | t in m.recent :: h.signature(t.signature) == h.signature(AttemptOf(r)) && t.resultWorld == r.afterWorld
  }

  /** The last `p` digests repeat the `p` before them and are not all the same. */
  ghost predicate EndsInRepetition(d: seq<Digest>, p: nat) {
    && 2 <= p && 2 * p <= |d|
    && (forall k | |d| - p <= k < |d| :: d[k] == d[k - p])
    && exists k | |d| - p <= k < |d| :: d[k] != d[|d| - p]
  }

  function RecordOf(r: Step): TransitionRecord {
    TransitionRecord(AttemptOf(r), r.afterWorld)
  }

  /** The transitions closed by the step, at most the last sixteen. */
  ghost function Window(h: Hashing, m: Monitor, r: Step): seq<Digest> {
    var all := m.recent + [RecordOf(r)];
    Digests(h, if |all| > 16 then all[|all| - 16..] else all)
  }

  /** The step goes back to a result it had before, or closes a cycle. */
  ghost predicate GoesInCircles(h: Hashing, m: Monitor, r: Step) {
    (Moved(m, r) && SeenBefore(h, m, r)) || exists p :: EndsInRepetition(Window(h, m, r), p)
  }

  /** Nothing came of the step, and it was not an action that changed something. */
  ghost predicate Idle(m: Monitor, i: Input) {
    && !Durable(i)
    && !(Acted(i.step) && (Moved(m, i.step) || LearnedSomething(m, i)))
  }

  ghost predicate SameAttempt(m: Monitor, r: Step) {
    m.latest == Some(AttemptOf(r))
  }

  /** A local result is replayed: reported so, or the same page is asked for and delivered again. */
  ghost predicate Replayed(m: Monitor, i: Input) {
    i.delta == Some(ExactReplay) || (SameAttempt(m, i.step) && i.step.decision.RequestActionPage?
                                     && i.step.hasActionPageResult)
  }

  /** An idle step that makes recovery due. An action is due when it repeats, an observation when patience ends. */
  ghost predicate Stalls(limit: nat, m: Monitor, i: Input) {
    || Replayed(m, i)
    || i.delta == Some(NoNewInformation)
    || (m.recovery.Some? && SameAttempt(m, i.step))
    || (if Acted(i.step) then
          SameAttempt(m, i.step) && m.sameAttemptStreak >= 1
        else
          var streak := m.observationOnlyStreak + 1;
          || (i.delta == Some(NoUsableInformation) && streak >= 2)
          || streak >= if i.step.decision.RequestActionPage? then 2 else limit)
  }

  ghost predicate RepeatRejected(m: Monitor, r: Step) {
    m.recovery.Some? && r.feedback == "recovery_repeat_rejected"
  }

  ghost predicate Prohibited(m: Monitor, r: Step) {
    m.recovery.Some? && AttemptOf(r) in m.recovery.value.prohibited
  }

  // ---- the plain terms are those of the monitor ----

  lemma PlainTerms(h: Hashing, m: Monitor, i: Input)
    ensures Acted(i.step) <==> GuiDispatched(i.step)
    ensures Moved(m, i.step) <==> WorldChanged(m, i.step)
    ensures Durable(i) <==> DurableProgress(i.step, i.delta)
    ensures SeenBefore(h, m, i.step) <==> Repeats(h, m.recent, RecordOf(i.step))
  {
    var r := i.step;
    if k :| 0 <= k < |r.receipts| && r.receipts[k].dispatch != NotSent {
      assert r.receipts[k] in r.receipts;
    }
    if k :| 0 <= k < |m.recent| && h.signature(m.recent[k].signature) == h.signature(AttemptOf(r))
            && m.recent[k].resultWorld == r.afterWorld {
      assert m.recent[k] in m.recent;
    }
  }

  lemma RepetitionIsPeriodic(d: seq<Digest>, p: nat)
    ensures EndsInRepetition(d, p) <==> RepeatsWithPeriod(d, p)
  {
    if 2 <= p && 2 * p <= |d| {
      var u, w := d[|d| - 2 * p..|d| - p], d[|d| - p..];
      if forall k | |d| - p <= k < |d| :: d[k] == d[k - p] {
        forall k | 0 <= k < p ensures u[k] == w[k] {
          assert d[|d| - p + k] == d[|d| - p + k - p];
        }
        assert u == w;
      }
      if u == w {
        forall k | |d| - p <= k < |d| ensures d[k] == d[k - p] {
          assert w[k - (|d| - p)] == u[k - (|d| - p)];
        }
      }
    }
  }

  lemma WordIsRepetition(d: seq<Digest>)
    ensures RepeatedWord(d).Some? <==> exists p :: EndsInRepetition(d, p)
    ensures RepeatedWord(d).Some? ==> RepeatedWord(d).value != []
  {
    ShortestRepeatIsLeast(d);
    if RepeatedWord(d).Some? {
      RepetitionIsPeriodic(d, |RepeatedWord(d).value|);
    }
    if p :| EndsInRepetition(d, p) {
      RepetitionIsPeriodic(d, p);
    }
  }

  lemma CyclesAreRepetitions(h: Hashing, m: Monitor, r: Step)
    ensures CycleCentre(h, Remember(m.recent, RecordOf(r))).Some? <==>
              exists p :: EndsInRepetition(Window(h, m, r), p)
  {
    assert Digests(h, Remember(m.recent, RecordOf(r))) == Window(h, m, r);
    WordIsRepetition(Window(h, m, r));
  }

  // ---- the advice on one step ----

  /** On a task that is finished, impossible or not evaluated the monitor only continues. */
  lemma ClosedTaskContinues(h: Hashing, limit: nat, m: Monitor, i: Input)
    requires !Open(i.step)
    ensures AdviceOn(h, limit, m, i).recommendation == Continue
    ensures StepTo(h, limit, m, i).centre == if i.step.evaluation.Some? then None else m.centre
  {
  }

  /** Why recovery opens outside a centre: a refused tool call, a circle, or an idle step that stalls. */
  ghost predicate Alarms(h: Hashing, limit: nat, m: Monitor, i: Input) {
    i.step.decision.ToolRejected? || GoesInCircles(h, m, i.step) || (Idle(m, i) && Stalls(limit, m, i))
  }

  /** What alarms is a stall that repeats an attempt the outstanding signal prohibits. */
  ghost predicate RepeatsProhibited(h: Hashing, m: Monitor, i: Input) {
    !i.step.decision.ToolRejected? && !GoesInCircles(h, m, i.step) && Prohibited(m, i.step)
  }

  lemma NoProgressAdvice(h: Hashing, limit: nat, m: Monitor, before: Monitor, i: Input, t: TransitionRecord,
                         events: set<Event>)
    requires m.latest == before.latest && m.sameAttemptStreak == before.sameAttemptStreak
    requires m.observationOnlyStreak == before.observationOnlyStreak && t == RecordOf(i.step)
    ensures var a := NoProgress(h, limit, m, i.step, t, events, before.recovery, i.delta).1;
            a.recommendation == if !Stalls(limit, before, i) then Continue
                                else if Prohibited(before, i.step) then Block
                                else Recover
  {
    PlainTerms(h, before, i);
  }

  lemma NoCentreAdvice(h: Hashing, limit: nat, before: Monitor, m: Monitor, i: Input, t: TransitionRecord,
                       events: set<Event>)
    requires m.latest == before.latest && m.sameAttemptStreak == before.sameAttemptStreak
    requires m.observationOnlyStreak == before.observationOnlyStreak
    requires t == RecordOf(i.step) && m.recent == Remember(before.recent, t)
    ensures var a := NoCentre(h, limit, before, m, i.step, t, events, i.findings, i.delta).1;
            a.recommendation == if !Alarms(h, limit, before, i) then Continue
                                else if RepeatsProhibited(h, before, i) then Block
                                else Recover
  {
    PlainTerms(h, before, i);
    CyclesAreRepetitions(h, before, i.step);
    NoProgressAdvice(h, limit, m, before, i, t, events);
  }

  /** Exactly when an open step outside a centre is advised to recover, and when it is blocked. */
  lemma AdviceOutsideCentre(h: Hashing, limit: nat, m: Monitor, i: Input)
    requires m.centre.None? && Open(i.step)
    ensures AdviceOn(h, limit, m, i).recommendation == Recover <==>
              !RepeatRejected(m, i.step) && Alarms(h, limit, m, i) && !RepeatsProhibited(h, m, i)
    ensures AdviceOn(h, limit, m, i).recommendation == Block <==>
              RepeatRejected(m, i.step) || (Alarms(h, limit, m, i) && RepeatsProhibited(h, m, i))
  {
    var r, t := i.step, RecordOf(i.step);
    var events := DiagnosticEvents(r)
      + {if AnyChange(m, r, i.findings, i.delta) then StateChanged else NoObservedChange};
    var seen := m.(recovery := None, recoveryCount := 0, world := Some(r.afterWorld), findings := i.findings,
                   recent := Remember(m.recent, t));
    NoCentreAdvice(h, limit, m, seen, i, t, events);
  }

  /** In a centre there is no further recovery: a step escapes, joins the centre, or is blocked. */
  lemma AdviceInCentre(h: Hashing, limit: nat, m: Monitor, i: Input)
    requires m.centre.Some? && |m.centre.value.members| <= 16 && Open(i.step)
    ensures AdviceOn(h, limit, m, i).recommendation != Recover
    ensures AdviceOn(h, limit, m, i).recommendation == Block <==>
              && !Durable(i) && !Moved(m, i.step)
              && var c, d := m.centre.value, TransitionDigest(h, RecordOf(i.step));
                 || RepeatRejected(m, i.step)
                 || (d in c.members && (c.armed || m.recovery.Some?))
                 || (d !in c.members && |c.members| == 16)
  {
    PlainTerms(h, m, i);
    MembersGrow(m.centre.value.members, TransitionDigest(h, RecordOf(i.step)));
  }

  // ---- repeating a dead action ----

  /** An action with the attempt identity, on an open task, after which world, findings and information are the same. */
  ghost predicate DeadAction(world: Digest, findings: Digest, attempt: Signature, i: Input) {
    Stuck(world, i) && Acted(i.step) && AttemptOf(i.step) == attempt && i.findings == findings
  }

  /** The active centre has the repeated action among its members. */
  ghost predicate Trapped(h: Hashing, m: Monitor, attempt: Signature) {
    && Inv(m) && m.centre.Some?
    && TransitionDigest(h, TransitionRecord(attempt, m.world.value)) in m.centre.value.members
  }

  lemma CycleHoldsLast(h: Hashing, m: Monitor, r: Step)
    requires CycleCentre(h, Remember(m.recent, RecordOf(r))).Some?
    ensures TransitionDigest(h, RecordOf(r)) in CycleCentre(h, Remember(m.recent, RecordOf(r))).value.members
  {
    var window := Remember(m.recent, RecordOf(r));
    var d := Digests(h, window);
    ShortestRepeatIsLeast(d);
    var word := RepeatedWord(d).value;
    assert window[|window| - 1] == RecordOf(r);
    assert word[|word| - 1] == d[|d| - 1];
  }

  /** Outside a centre a dead action traps itself, at the latest when it is repeated. */
  lemma DeadActionOutside(h: Hashing, limit: nat, m: Monitor, attempt: Signature, i: Input)
    requires Inv(m) && m.centre.None? && DeadAction(m.world.value, m.findings, attempt, i)
    ensures var n := StepTo(h, limit, m, i);
            && Inv(n) && n.world == m.world && n.findings == m.findings
            && if AdviceOn(h, limit, m, i).recommendation != Continue then Trapped(h, n, attempt)
               else n.centre.None? && n.latest == Some(attempt) && n.sameAttemptStreak >= 1
    ensures m.latest == Some(attempt) && m.sameAttemptStreak >= 1 ==>
              AdviceOn(h, limit, m, i).recommendation != Continue
  {
    InvIsKept(h, limit, m, i);
    AdviceOutsideCentre(h, limit, m, i);
    PlainTerms(h, m, i);
    if CycleCentre(h, Remember(m.recent, RecordOf(i.step))).Some? {
      CycleHoldsLast(h, m, i.step);
    }
  }

  /** Inside a centre it joins the members, and blocks when it is one already. */
  lemma DeadActionInside(h: Hashing, limit: nat, m: Monitor, attempt: Signature, i: Input)
    requires Inv(m) && m.centre.Some? && DeadAction(m.world.value, m.findings, attempt, i)
    ensures AdviceOn(h, limit, m, i).recommendation == Block || Trapped(h, StepTo(h, limit, m, i), attempt)
    ensures Trapped(h, m, attempt) ==> AdviceOn(h, limit, m, i).recommendation == Block
    ensures var n := StepTo(h, limit, m, i); Inv(n) && n.world == m.world && n.findings == m.findings
  {
    InvIsKept(h, limit, m, i);
    AdviceInCentre(h, limit, m, i);
  }

  ghost predicate AlertsAt(h: Hashing, limit: nat, m: Monitor, run: seq<Input>, k: nat)
    requires k < |run|
  {
    AdviceOn(h, limit, After(h, limit, m, run[..k]), run[k]).recommendation != Continue
  }

  /**
   From any point of a guarded episode: repeating one action that changes nothing is answered by recovery or a block no
   later than its second occurrence, and blocked no later than its third.
   */
  lemma RepeatedDeadActionIsBlocked(h: Hashing, limit: nat, m: Monitor, attempt: Signature, run: seq<Input>)
    requires Inv(m) && |run| >= 3
    requires forall k | 0 <= k < |run| :: DeadAction(m.world.value, m.findings, attempt, run[k])
    ensures AlertsAt(h, limit, m, run, 0) || AlertsAt(h, limit, m, run, 1)
    ensures BlocksWithin(h, limit, m, run, 3)
  {
    var one := StepTo(h, limit, m, run[0]);
    var two := StepTo(h, limit, one, run[1]);
    assert After(h, limit, m, run[..0]) == m && After(h, limit, m, run[..1]) == one by {
      assert run[..1][..0] == run[..0] == [];
    }
    assert After(h, limit, m, run[..2]) == two by {
      assert run[..2][..1] == run[..1];
    }
    DeadActionStep(h, limit, m, attempt, run[0]);
    DeadActionStep(h, limit, one, attempt, run[1]);
    DeadActionStep(h, limit, two, attempt, run[2]);
    assert BlocksAt(h, limit, m, run, 0) || BlocksAt(h, limit, m, run, 1) || BlocksAt(h, limit, m, run, 2);
  }

  /** Either way a dead action ends trapped or blocked, and a trapped one is blocked. */
  lemma DeadActionStep(h: Hashing, limit: nat, m: Monitor, attempt: Signature, i: Input)
    requires Inv(m) && DeadAction(m.world.value, m.findings, attempt, i)
    ensures var n := StepTo(h, limit, m, i);
            Inv(n) && n.world == m.world && n.findings == m.findings
    ensures Trapped(h, m, attempt) ==> AdviceOn(h, limit, m, i).recommendation == Block
    ensures || AdviceOn(h, limit, m, i).recommendation == Block
            || Trapped(h, StepTo(h, limit, m, i), attempt)
            || (Warned(StepTo(h, limit, m, i), attempt) && !Warned(m, attempt)
                && AdviceOn(h, limit, m, i).recommendation == Continue)
    ensures AdviceOn(h, limit, m, i).recommendation == Continue && !Warned(StepTo(h, limit, m, i), attempt) ==>
              m.centre.Some?
  {
    if m.centre.Some? {
      DeadActionInside(h, limit, m, attempt, i);
    } else {
      DeadActionOutside(h, limit, m, attempt, i);
    }
  }

  /** The repeated attempt is on record, outside a centre. */
  ghost predicate Warned(m: Monitor, attempt: Signature) {
    m.centre.None? && m.latest == Some(attempt) && m.sameAttemptStreak >= 1
  }

  /** In every guarded episode. */
  lemma DeadActionBound(h: Hashing, limit: nat, world: Digest, findings: Digest, past: seq<Input>, attempt: Signature,
                        run: seq<Input>)
    requires forall k | 0 <= k < |past| :: Guarded(past[k])
    requires var m := After(h, limit, StartEpisode(world, findings), past);
             m.world.Some? ==> forall k | 0 <= k < |run| :: DeadAction(m.world.value, m.findings, attempt, run[k])
    requires |run| >= 3
    ensures var m := After(h, limit, StartEpisode(world, findings), past);
            (AlertsAt(h, limit, m, run, 0) || AlertsAt(h, limit, m, run, 1)) && BlocksWithin(h, limit, m, run, 3)
  {
    InvOverRuns(h, limit, StartEpisode(world, findings), past);
    RepeatedDeadActionIsBlocked(h, limit, After(h, limit, StartEpisode(world, findings), past), attempt, run);
  }

  // ---- what a step leaves behind ----

  /** What a step answers, given the monitor that has consumed the signal it held. */
  ghost predicate Answers(m: Monitor, consumed: Option<Signal>, attempt: Signature, events: set<Event>,
                          result: (Monitor, Advice))
  {
    var n, a := result.0, result.1;
    && (a.recommendation == Continue ==> a.events == events)
    && (a.recommendation == Recover ==>
          a.events == events + {if a.reason == OfKind(StateOscillation) then Oscillation else RepeatedAction})
    && (a.recommendation == Block ==> a.events == events + {RepeatedAction} || a.events == events + {Oscillation})
    && n.recovery == a.signal && n.world == m.world && n.findings == m.findings
    && (a.recommendation == Continue <==> a.signal.None?)
    && n.epochs == m.epochs + (if a.recommendation == Continue then 0 else 1)
    && (a.signal.Some? ==> SignalFits(n, a, attempt))
    && (a.signal.None? ==>
          && a.lifecycle == (if consumed.Some? then Closed else NoTransition)
          && a.reason == if consumed.Some? then RecoveryConsumed else NoReason)
  }

  lemma NoProgressAnswers(h: Hashing, limit: nat, m: Monitor, r: Step, t: TransitionRecord, events: set<Event>,
                          consumed: Option<Signal>, delta: Option<Delta>)
    requires m.recovery.None? && t == RecordOf(r)
    ensures Answers(m, consumed, AttemptOf(r), events, NoProgress(h, limit, m, r, t, events, consumed, delta))
  {
  }

  lemma RejectToolAnswers(h: Hashing, m: Monitor, r: Step, t: TransitionRecord, events: set<Event>,
                          consumed: Option<Signal>)
    requires r.decision.ToolRejected? && t == RecordOf(r)
    ensures Answers(m, consumed, AttemptOf(r), events, RejectTool(h, m, r, t, events))
  {
  }

  lemma OscillatesAnswers(m: Monitor, r: Step, t: TransitionRecord, events: set<Event>, c: FailureCentre,
                          consumed: Option<Signal>)
    requires c.kind == StateOscillation && !c.armed
    ensures Answers(m, consumed, AttemptOf(r), events, Oscillates(m, r, t, events, c))
  {
  }

  lemma NoCentreAnswers(h: Hashing, limit: nat, before: Monitor, m: Monitor, i: Input, t: TransitionRecord,
                        events: set<Event>)
    requires m.recovery.None? && t == RecordOf(i.step)
    ensures Answers(m, before.recovery, AttemptOf(i.step), events,
                    NoCentre(h, limit, before, m, i.step, t, events, i.findings, i.delta))
  {
    if i.step.decision.ToolRejected? {
      RejectToolAnswers(h, m, i.step, t, events, before.recovery);
    } else if Repeats(h, before.recent, t) && WorldChanged(before, i.step) {
      OscillatesAnswers(m, i.step, t, events, RecurrenceCentre(h, t), before.recovery);
    } else if CycleCentre(h, m.recent).Some? {
      OscillatesAnswers(m, i.step, t, events, CycleCentre(h, m.recent).value, before.recovery);
    } else {
      NoProgressAnswers(h, limit, m, i.step, t, events, before.recovery, i.delta);
    }
  }

  lemma DwellAnswers(h: Hashing, m: Monitor, c: FailureCentre, r: Step, t: TransitionRecord, events: set<Event>,
                     consumed: Option<Signal>)
    requires m.recovery.None? && t == RecordOf(r)
    ensures Answers(m, consumed, AttemptOf(r), events, Dwell(h, m, c, r, t, events, consumed))
  {
  }

  lemma RejectRepeatAnswers(h: Hashing, m: Monitor, r: Step, t: TransitionRecord, events: set<Event>,
                            consumed: Option<Signal>)
    requires t == RecordOf(r) && consumed.Some?
    ensures Answers(m, consumed, AttemptOf(r), events, RejectRepeat(h, m, r, t, events))
  {
  }

  lemma AssessAnswers(h: Hashing, limit: nat, before: Monitor, seen: Monitor, i: Input, events: set<Event>)
    requires seen.recovery.None?
    ensures Answers(seen, before.recovery, AttemptOf(i.step), events,
                    Assess(h, limit, before, seen, i.step, events, i.findings, i.delta))
  {
    var r, t := i.step, RecordOf(i.step);
    var recorded := seen.(recent := Remember(before.recent, t));
    if before.centre.Some? && (DurableProgress(r, i.delta) || WorldChanged(before, r)) {
    } else if before.recovery.Some? && r.feedback == RECOVERY_REPEAT_REJECTED {
      RejectRepeatAnswers(h, recorded, r, t, events, before.recovery);
    } else if before.centre.Some? {
      DwellAnswers(h, recorded, before.centre.value, r, t, events, before.recovery);
    } else {
      NoCentreAnswers(h, limit, before, recorded, i, t, events);
    }
  }

  /** Why the step itself failed, if it did: the policy before the environment before a missing capability. */
  ghost predicate Reported(r: Step, e: Event) {
    match e
    case ProviderFailure => r.decision.PolicyFailure?
    case EnvironmentFailure => !r.decision.PolicyFailure? && r.hasRuntimeFailure
    case CapabilityGap =>
      !r.decision.PolicyFailure? && !r.hasRuntimeFailure && r.decision.RequestObservation?
      && "observation_unavailable" <= r.feedback
    case _ => false
  }

  /** What was seen of the step, before anything is decided. */
  ghost function EventsOf(m: Monitor, i: Input): set<Event> {
    (set e | e in {ProviderFailure, EnvironmentFailure, CapabilityGap} && Reported(i.step, e))
    + {if Moved(m, i.step) || LearnedSomething(m, i) || i.delta == Some(NewInformation) then StateChanged
       else NoObservedChange}
  }

  lemma EventsAre(m: Monitor, i: Input)
    ensures DiagnosticEvents(i.step)
            + {if AnyChange(m, i.step, i.findings, i.delta) then StateChanged else NoObservedChange}
         == EventsOf(m, i)
  {
  }

  /**
   A signal goes out with every recovery and block and with nothing else; it is numbered by the epoch it opens,
   describes the active centre, and prohibits at most the attempt just made. The events are what was seen of the step,
   and with a signal a repetition or an oscillation.
   */
  lemma SignalIs(h: Hashing, limit: nat, m: Monitor, i: Input)
    ensures Answers(m.(world := Some(i.step.afterWorld), findings := i.findings), m.recovery, AttemptOf(i.step),
                    EventsOf(m, i), (StepTo(h, limit, m, i), AdviceOn(h, limit, m, i)))
  {
    EventsAre(m, i);
    if Open(i.step) {
      AssessAnswers(h, limit, m, m.(recovery := None, recoveryCount := 0, world := Some(i.step.afterWorld),
                                    findings := i.findings), i, EventsOf(m, i));
    }
  }

  /** An ended episode has no centre and no signal outstanding, and is otherwise as it was. */
  lemma EndedEpisodeIsClean(m: Monitor)
    ensures EndEpisode(m).centre == None && EndEpisode(m).recovery == None
    ensures EndEpisode(m).(centre := m.centre, recovery := m.recovery) == m
  {
  }

  ghost predicate SignalFits(n: Monitor, a: Advice, attempt: Signature)
    requires a.signal.Some?
  {
    var s := a.signal.value;
    && a.lifecycle == Started && s.epoch == n.epochs && n.centre.Some?
    && s.centreDigest == s.stableSignature == n.centre.value.digest && s.centrePeriod == n.centre.value.period
    && s.centreMembers == n.centre.value.members
    && (s.prohibited == [] || s.prohibited == [attempt])
    && (a.recommendation == Recover ==>
          a.reason == OfKind(s.kind) && s.kind == n.centre.value.kind && s.attempt == 1 && !n.centre.value.armed)
    && (a.recommendation == Block ==> a.reason == ControlStalled && n.centre.value.armed)
  }

  // ---- what a signal prohibits ----

  /** The attempt a step stands for: its action, the call refused or answered locally, or the decision itself. */
  lemma AttemptIs(r: Step)
    ensures r.decision.SelectAction? && r.receipts != [] ==> AttemptOf(r) == r.guiSignature
    ensures r.decision.SelectAction? && r.receipts == [] ==> AttemptOf(r) == r.ordinarySignature
    ensures r.decision.ToolRejected? || r.decision.LocalTool? ==>
              AttemptOf(r) == if r.decision.rejected.Some? then r.decision.rejected.value else r.ordinarySignature
    ensures !r.decision.SelectAction? && !r.decision.ToolRejected? && !r.decision.LocalTool? ==>
              AttemptOf(r) == r.ordinarySignature
  {
  }

  /** An action proved to do nothing: sent without error, its postcondition shown unmet, everything as before. */
  ghost predicate ProvenDead(r: Step) {
    && r.decision.SelectAction? && r.receipts != []
    && r.receipts[|r.receipts| - 1] == Receipt(Sent, true, false)
    && r.outcome == Some(Outcome(Unchanged, Unsatisfied, true))
    && r.afterWorld == r.beforeWorld && r.guiSignatureAfter == r.guiSignature
  }

  /** The step shows that its attempt is of no use: it was refused, proved dead, or has brought the run here before. */
  ghost predicate IncriminatesItself(h: Hashing, m: Monitor, i: Input) {
    || (i.step.decision.ToolRejected? && i.step.decision.rejected.Some?)
    || ProvenDead(i.step)
    || (!RepeatRejected(m, i.step)
        && match m.centre
           case Some(c) => TransitionDigest(h, RecordOf(i.step)) in c.members
           case None =>
             && !i.step.decision.ToolRejected?
             && (|| Replayed(m, i) || i.delta == Some(NoUsableInformation)
                 || (SameAttempt(m, i.step) && (Acted(i.step) || m.recovery.Some?))))
  }

  lemma ProvenFailedIsDead(r: Step)
    ensures ProvenFailedAttempt(r) == if ProvenDead(r) then Some(AttemptOf(r)) else None
    ensures RejectedAttempt(r).Some? <==> r.decision.ToolRejected? && r.decision.rejected.Some?
    ensures RejectedAttempt(r).Some? ==> RejectedAttempt(r) == Some(AttemptOf(r)) && !ProvenDead(r)
  {
  }

  ghost predicate Prohibits(a: Advice, attempt: Signature, kind: RecoveryKind, incriminated: bool) {
    a.signal.Some? ==>
      && a.signal.value.kind == kind
      && a.signal.value.prohibited == if kind == ControlStall && incriminated then [attempt] else []
  }

  lemma NoProgressProhibits(h: Hashing, limit: nat, before: Monitor, m: Monitor, i: Input, t: TransitionRecord,
                            events: set<Event>)
    requires m.latest == before.latest && t == RecordOf(i.step) && !i.step.decision.ToolRejected?
    requires before.centre.None? && !RepeatRejected(before, i.step)
    ensures Prohibits(NoProgress(h, limit, m, i.step, t, events, before.recovery, i.delta).1, AttemptOf(i.step),
                      ControlStall, IncriminatesItself(h, before, i))
  {
    PlainTerms(h, before, i);
    ProvenFailedIsDead(i.step);
  }

  lemma NoCentreProhibits(h: Hashing, limit: nat, before: Monitor, m: Monitor, i: Input, t: TransitionRecord,
                          events: set<Event>)
    requires m.latest == before.latest && t == RecordOf(i.step) && m.recent == Remember(before.recent, t)
    requires before.centre.None? && !RepeatRejected(before, i.step)
    ensures Prohibits(NoCentre(h, limit, before, m, i.step, t, events, i.findings, i.delta).1, AttemptOf(i.step),
                      if !i.step.decision.ToolRejected? && GoesInCircles(h, before, i.step) then StateOscillation
                      else ControlStall,
                      IncriminatesItself(h, before, i))
  {
    PlainTerms(h, before, i);
    CyclesAreRepetitions(h, before, i.step);
    ProvenFailedIsDead(i.step);
    if !i.step.decision.ToolRejected? {
      NoProgressProhibits(h, limit, before, m, i, t, events);
    }
  }

  lemma DwellProhibits(h: Hashing, before: Monitor, m: Monitor, c: FailureCentre, i: Input, t: TransitionRecord,
                       events: set<Event>)
    requires before.centre == Some(c) && t == RecordOf(i.step) && !RepeatRejected(before, i.step)
    requires |c.members| <= 16
    ensures Prohibits(Dwell(h, m, c, i.step, t, events, before.recovery).1, AttemptOf(i.step),
                      if c.kind == ControlStall then ControlStall else StateOscillation,
                      IncriminatesItself(h, before, i))
  {
    ProvenFailedIsDead(i.step);
    MembersGrow(c.members, TransitionDigest(h, t));
  }

  lemma RejectRepeatProhibits(h: Hashing, before: Monitor, m: Monitor, i: Input, t: TransitionRecord,
                              events: set<Event>)
    requires RepeatRejected(before, i.step)
    ensures Prohibits(RejectRepeat(h, m, i.step, t, events).1, AttemptOf(i.step), ControlStall,
                      IncriminatesItself(h, before, i))
  {
    ProvenFailedIsDead(i.step);
  }

  /** The kind of signal a step would get: an oscillation for going in circles, or while such a centre is active. */
  ghost function SignalKind(h: Hashing, m: Monitor, i: Input): RecoveryKind {
    if RepeatRejected(m, i.step) then ControlStall
    else match m.centre
         case Some(c) => if c.kind == ControlStall then ControlStall else StateOscillation
         case None =>
           if !i.step.decision.ToolRejected? && GoesInCircles(h, m, i.step) then StateOscillation else ControlStall
  }

  lemma AssessProhibits(h: Hashing, limit: nat, before: Monitor, seen: Monitor, i: Input, events: set<Event>)
    requires before.centre.Some? ==> |before.centre.value.members| <= 16
    requires seen.latest == before.latest
    ensures Prohibits(Assess(h, limit, before, seen, i.step, events, i.findings, i.delta).1, AttemptOf(i.step),
                      SignalKind(h, before, i), IncriminatesItself(h, before, i))
  {
    var r, t := i.step, RecordOf(i.step);
    var recorded := seen.(recent := Remember(before.recent, t));
    if before.centre.Some? && (DurableProgress(r, i.delta) || WorldChanged(before, r)) {
    } else if RepeatRejected(before, r) {
      RejectRepeatProhibits(h, before, recorded, i, t, events);
    } else if before.centre.Some? {
      DwellProhibits(h, before, recorded, before.centre.value, i, t, events);
    } else {
      NoCentreProhibits(h, limit, before, recorded, i, t, events);
    }
  }

  /** Exactly what a signal prohibits: of a control stall, the attempt of a step that incriminates itself. */
  lemma SignalProhibits(h: Hashing, limit: nat, m: Monitor, i: Input)
    requires m.centre.Some? ==> |m.centre.value.members| <= 16
    ensures Prohibits(AdviceOn(h, limit, m, i), AttemptOf(i.step), SignalKind(h, m, i), IncriminatesItself(h, m, i))
  {
    if Open(i.step) {
      EventsAre(m, i);
      AssessProhibits(h, limit, m, m.(recovery := None, recoveryCount := 0, world := Some(i.step.afterWorld),
                                      findings := i.findings), i, EventsOf(m, i));
    }
  }

  /** A step on an open task that came to nothing: it is counted, unless it would be a centre's seventeenth member. */
  ghost predicate Unproductive(h: Hashing, m: Monitor, i: Input) {
    && Open(i.step)
    && match m.centre
       case Some(c) =>
         && !Durable(i) && !Moved(m, i.step)
         && var d := TransitionDigest(h, RecordOf(i.step));
            || RepeatRejected(m, i.step)
            || (d in c.members && (c.armed || m.recovery.Some?))
            || |c.members + {d}| <= 16
       case None =>
         RepeatRejected(m, i.step) || i.step.decision.ToolRejected? || GoesInCircles(h, m, i.step) || Idle(m, i)
  }

  lemma NoCentreCounts(h: Hashing, limit: nat, before: Monitor, m: Monitor, i: Input, t: TransitionRecord,
                       events: set<Event>)
    requires t == RecordOf(i.step) && m.recent == Remember(before.recent, t)
    ensures NoCentre(h, limit, before, m, i.step, t, events, i.findings, i.delta).0.noProgressCount ==
              m.noProgressCount
              + if i.step.decision.ToolRejected? || GoesInCircles(h, before, i.step) || Idle(before, i) then 1 else 0
  {
    PlainTerms(h, before, i);
    CyclesAreRepetitions(h, before, i.step);
  }

  lemma UnproductiveIsCounted(h: Hashing, limit: nat, m: Monitor, i: Input)
    ensures StepTo(h, limit, m, i).noProgressCount == m.noProgressCount + if Unproductive(h, m, i) then 1 else 0
  {
    PlainTerms(h, m, i);
    if Open(i.step) && m.centre.None? {
      var events := DiagnosticEvents(i.step)
        + {if AnyChange(m, i.step, i.findings, i.delta) then StateChanged else NoObservedChange};
      var t := RecordOf(i.step);
      NoCentreCounts(h, limit, m, m.(recovery := None, recoveryCount := 0, world := Some(i.step.afterWorld),
                                     findings := i.findings, recent := Remember(m.recent, t)), i, t, events);
    }
  }

  ghost function CountUnproductive(h: Hashing, limit: nat, m: Monitor, run: seq<Input>): nat {
    if run == [] then 0
    else
      CountUnproductive(h, limit, m, run[..|run| - 1])
      + if Unproductive(h, After(h, limit, m, run[..|run| - 1]), run[|run| - 1]) then 1 else 0
  }

  ghost function CountAlerts(h: Hashing, limit: nat, m: Monitor, run: seq<Input>): nat {
    if run == [] then 0
    else CountAlerts(h, limit, m, run[..|run| - 1]) + if AlertsAt(h, limit, m, run, |run| - 1) then 1 else 0
  }

  /** Over every run: the no-progress count is the number of unproductive steps, the epoch the number of signals. */
  lemma {:induction false} RunCounts(h: Hashing, limit: nat, m: Monitor, run: seq<Input>)
    ensures After(h, limit, m, run).noProgressCount == m.noProgressCount + CountUnproductive(h, limit, m, run)
    ensures After(h, limit, m, run).epochs == m.epochs + CountAlerts(h, limit, m, run)
  {
    if run == [] {
    } else {
      var front, last := run[..|run| - 1], run[|run| - 1];
      RunCounts(h, limit, m, front);
      UnproductiveIsCounted(h, limit, After(h, limit, m, front), last);
      SignalIs(h, limit, After(h, limit, m, front), last);
    }
  }
}
