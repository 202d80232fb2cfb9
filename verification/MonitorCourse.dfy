/** One step of the monitor as a table: the course the step takes, and what each course leaves behind. */
module MonitorCourse {
  import opened Wrappers
  import opened TransitionCycle
  import opened ExecutionContracts
  import opened MonitorSpec
  import opened MonitorTheorems
  import opened MonitorAdvice

  datatype Course =
    | Unread      // the task was not evaluated
    | Settled     // the task is finished or impossible
    | Escape      // out of a centre, by progress or into another world
    | Rebuff      // a prohibited attempt was repeated and rejected
    | Reentry     // into a member of an armed or signalled centre
    | Overflow    // what would be a seventeenth member
    | Join        // one more member
    | Refusal     // a tool call was refused
    | Circle      // back to an earlier result, or round a cycle
    | Progress    // something durable
    | Effect      // an action that changed something
    | Idling      // nothing

  ghost function CourseOf(h: Hashing, m: Monitor, i: Input): Course {
    if i.step.evaluation.None? then Unread
    else if !Open(i.step) then Settled
    else match m.centre
         case Some(c) =>
           var d := TransitionDigest(h, RecordOf(i.step));
           if Durable(i) || Moved(m, i.step) then Escape
           else if RepeatRejected(m, i.step) then Rebuff
           else if d in c.members && (c.armed || m.recovery.Some?) then Reentry
           else if |c.members + {d}| > 16 then Overflow
           else Join
         case None =>
           if RepeatRejected(m, i.step) then Rebuff
           else if i.step.decision.ToolRejected? then Refusal
           else if GoesInCircles(h, m, i.step) then Circle
           else if Durable(i) then Progress
           else if Idle(m, i) then Idling
           else Effect
  }

  /** A new centre around one transition. */
  function Around(h: Hashing, r: Step): FailureCentre {
    var d := h.transition(h.signature(AttemptOf(r)), r.afterWorld);
    FailureCentre(h.singleCentre(d), 1, {d}, ControlStall, false)
  }

  /** A new centre where a transition recurs in a changed world, or around the shortest cycle that closes. */
  ghost function CircleCentre(h: Hashing, m: Monitor, r: Step): FailureCentre {
    if Moved(m, r) && SeenBefore(h, m, r) then
      FailureCentre(h.recurrence(h.signature(AttemptOf(r)), r.afterWorld), 1,
                    {h.transition(h.signature(AttemptOf(r)), r.afterWorld)}, StateOscillation, false)
    else
      var word := RepeatedWord(Window(h, m, r));
      if word.None? || word.value == [] then Around(h, r)
      else
        FailureCentre(h.cycle(Canonical(word.value)), |word.value|, (set d | d in word.value), StateOscillation, false)
  }

  /** One more of the same attempt, or the first of another. */
  ghost function Streak(m: Monitor, r: Step): nat {
    if SameAttempt(m, r) then m.sameAttemptStreak + 1 else 1
  }

  /** The centre a step leaves. */
  ghost function CentreAfter(h: Hashing, limit: nat, m: Monitor, i: Input): Option<FailureCentre> {
    match CourseOf(h, m, i)
    case Unread => m.centre
    case Settled => None
    case Escape => None
    case Rebuff => Some((if m.centre.Some? then m.centre.value else Around(h, i.step)).(armed := true))
    case Reentry => if m.centre.Some? then Some(m.centre.value.(armed := true)) else None
    case Overflow => if m.centre.Some? then Some(m.centre.value.(armed := true)) else None
    case Join =>
      if m.centre.None? then None
      else Some(m.centre.value.(members := m.centre.value.members + {TransitionDigest(h, RecordOf(i.step))},
                                armed := m.centre.value.armed || m.recovery.Some?))
    case Refusal => Some(Around(h, i.step))
    case Circle => Some(CircleCentre(h, m, i.step))
    case Progress => None
    case Effect => None
    case Idling =>
      if Stalls(limit, m, i) then Some(Around(h, i.step).(armed := Prohibited(m, i.step))) else None
  }

  /** The attempt it remembers and how often in a row. */
  ghost function AttemptsAfter(h: Hashing, m: Monitor, i: Input): (Option<Signature>, nat) {
    var attempt := Some(AttemptOf(i.step));
    match CourseOf(h, m, i)
    case Unread => (m.latest, m.sameAttemptStreak)
    case Settled => (m.latest, 0)
    case Escape => (None, 0)
    case Rebuff => (attempt, Streak(m, i.step))
    case Reentry => (attempt, m.sameAttemptStreak + 1)
    case Overflow => (m.latest, m.sameAttemptStreak)
    case Join => (attempt, 1)
    case Refusal => (attempt, Streak(m, i.step))
    case Circle => (attempt, 1)
    case Progress => (None, 0)
    case Effect =>
      (if i.step.decision.SelectAction? && i.step.receipts != [] then Some(i.step.guiSignature) else None, 1)
    case Idling => (attempt, Streak(m, i.step))
  }

  /** How many steps in a row only observed. */
  ghost function ObservationsAfter(h: Hashing, limit: nat, m: Monitor, i: Input): nat {
    match CourseOf(h, m, i)
    case Settled => 0
    case Escape => 0
    case Circle => 0
    case Progress => 0
    case Effect => 0
    case Idling =>
      if Stalls(limit, m, i) || Acted(i.step) || Replayed(m, i) then 0 else m.observationOnlyStreak + 1
    case _ => m.observationOnlyStreak
  }

  /** How grave the step was. */
  ghost function GravityOf(h: Hashing, limit: nat, m: Monitor, i: Input): nat {
    match CourseOf(h, m, i)
    case Rebuff => 2
    case Reentry => 2
    case Overflow => 2
    case Join => 1
    case Refusal => 1
    case Circle => 1
    case Idling => if Stalls(limit, m, i) then 1 else 0
    case _ => 0
  }

  /** The transitions it remembers: the last sixteen, and none once the task is settled. */
  ghost function RecentAfter(h: Hashing, m: Monitor, i: Input): seq<TransitionRecord> {
    var all := m.recent + [RecordOf(i.step)];
    match CourseOf(h, m, i)
    case Unread => m.recent
    case Settled => []
    case _ => if |all| > 16 then all[|all| - 16..] else all
  }

  ghost predicate TakesCourse(h: Hashing, limit: nat, m: Monitor, i: Input, n: Monitor) {
    && n.centre == CentreAfter(h, limit, m, i)
    && (n.latest, n.sameAttemptStreak) == AttemptsAfter(h, m, i)
    && n.observationOnlyStreak == ObservationsAfter(h, limit, m, i)
    && n.recoveryCount == GravityOf(h, limit, m, i)
    && n.recent == RecentAfter(h, m, i)
  }

  /** A monitor that has read the step and decided nothing yet. */
  ghost predicate HasRead(m: Monitor, i: Input, n: Monitor) {
    && n.latest == m.latest && n.sameAttemptStreak == m.sameAttemptStreak
    && n.observationOnlyStreak == m.observationOnlyStreak && n.recoveryCount == 0 && n.centre == m.centre
    && n.recent == Remember(m.recent, RecordOf(i.step))
  }

  lemma InCentreTakesCourse(h: Hashing, limit: nat, m: Monitor, n: Monitor, i: Input, events: set<Event>)
    requires HasRead(m, i, n) && m.centre.Some? && Open(i.step) && !Durable(i) && !Moved(m, i.step)
    requires !RepeatRejected(m, i.step)
    ensures TakesCourse(h, limit, m, i, Dwell(h, n, m.centre.value, i.step, RecordOf(i.step), events, m.recovery).0)
  {
  }

  lemma RebuffTakesCourse(h: Hashing, limit: nat, m: Monitor, n: Monitor, i: Input, events: set<Event>)
    requires HasRead(m, i, n) && Open(i.step) && RepeatRejected(m, i.step)
    requires m.centre.Some? ==> !Durable(i) && !Moved(m, i.step)
    ensures TakesCourse(h, limit, m, i, RejectRepeat(h, n, i.step, RecordOf(i.step), events).0)
  {
    ProvenFailedIsDead(i.step);
  }

  lemma IdlingTakesCourse(h: Hashing, limit: nat, m: Monitor, n: Monitor, i: Input, events: set<Event>)
    requires HasRead(m, i, n) && CourseOf(h, m, i) == Idling && m.centre.None?
    ensures TakesCourse(h, limit, m, i,
                        NoProgress(h, limit, n, i.step, RecordOf(i.step), events, m.recovery, i.delta).0)
  {
    PlainTerms(h, m, i);
  }

  lemma CircleTakesCourse(h: Hashing, limit: nat, m: Monitor, n: Monitor, i: Input, events: set<Event>)
    requires HasRead(m, i, n) && CourseOf(h, m, i) == Circle && m.centre.None?
    ensures var t := RecordOf(i.step);
            TakesCourse(h, limit, m, i,
                        Oscillates(n, i.step, t, events,
                                   if Repeats(h, m.recent, t) && WorldChanged(m, i.step) then RecurrenceCentre(h, t)
                                   else if CycleCentre(h, n.recent).Some? then CycleCentre(h, n.recent).value
                                   else Around(h, i.step)).0)
  {
    PlainTerms(h, m, i);
    CyclesAreRepetitions(h, m, i.step);
    assert Digests(h, n.recent) == Window(h, m, i.step);
  }

  lemma OutsideTakesCourse(h: Hashing, limit: nat, m: Monitor, n: Monitor, i: Input, events: set<Event>)
    requires HasRead(m, i, n) && m.centre.None? && Open(i.step) && !RepeatRejected(m, i.step)
    ensures TakesCourse(h, limit, m, i,
                        NoCentre(h, limit, m, n, i.step, RecordOf(i.step), events, i.findings, i.delta).0)
  {
    PlainTerms(h, m, i);
    CyclesAreRepetitions(h, m, i.step);
    if CourseOf(h, m, i) == Circle {
      CircleTakesCourse(h, limit, m, n, i, events);
    } else if CourseOf(h, m, i) == Idling {
      IdlingTakesCourse(h, limit, m, n, i, events);
    }
  }

  lemma OpenTakesCourse(h: Hashing, limit: nat, m: Monitor, seen: Monitor, i: Input, events: set<Event>)
    requires Open(i.step) && HasRead(m, i, seen.(recent := Remember(m.recent, RecordOf(i.step))))
    ensures TakesCourse(h, limit, m, i,
                        Assess(h, limit, m, seen, i.step, events, i.findings, i.delta).0)
  {
    var n := seen.(recent := Remember(m.recent, RecordOf(i.step)));
    PlainTerms(h, m, i);
    if m.centre.Some? && (Durable(i) || Moved(m, i.step)) {
    } else if RepeatRejected(m, i.step) {
      RebuffTakesCourse(h, limit, m, n, i, events);
    } else if m.centre.Some? {
      InCentreTakesCourse(h, limit, m, n, i, events);
    } else {
      OutsideTakesCourse(h, limit, m, n, i, events);
    }
  }

  /** Every step of every monitor leaves what the table says. */
  lemma StepTakesCourse(h: Hashing, limit: nat, m: Monitor, i: Input)
    ensures TakesCourse(h, limit, m, i, StepTo(h, limit, m, i))
  {
    if Open(i.step) {
      EventsAre(m, i);
      OpenTakesCourse(h, limit, m, m.(recovery := None, recoveryCount := 0, world := Some(i.step.afterWorld),
                                      findings := i.findings), i, EventsOf(m, i));
    }
  }

  // ---- pause and restore ----

  /** A centre fit for a snapshot: of at least one and at most sixteen members and a period. */
  lemma SnapshotsAre(s: Snapshot)
    ensures AdmissibleSnapshot(s) <==>
              match s.centre
              case None => true
              case Some(c) => c.period > 0 && c.members != {} && |c.members| <= 16
  {
  }

  /** A snapshot counts only in the world it was taken in. */
  ghost predicate Counts(snapshot: Option<Snapshot>, world: Digest) {
    snapshot.Some? && snapshot.value.world == world
  }

  /** The centre of the signal, if it describes one, before that of a snapshot that counts. */
  ghost function CentreRestored(world: Digest, signal: Option<Signal>, snapshot: Option<Snapshot>)
    : Option<FailureCentre>
  {
    if signal.Some? && signal.value.centrePeriod > 0 && signal.value.centreMembers != {} then
      var s := signal.value;
      Some(FailureCentre(s.centreDigest, s.centrePeriod, s.centreMembers, s.kind, s.centreArmed))
    else if Counts(snapshot, world) then snapshot.value.centre
    else None
  }

  /** Whatever is restored: a fresh episode but for the centre, the later epoch, the signal and what it prohibits. */
  lemma RestoredIs(world: Digest, findings: Digest, signal: Option<Signal>, snapshot: Option<Snapshot>)
    ensures var n := Restore(world, findings, signal, snapshot);
            && n.centre == CentreRestored(world, signal, snapshot) && n.recovery == signal
            && n.recoveryCount == (if signal.Some? then signal.value.attempt else 0)
            && (signal.Some? && signal.value.prohibited != [] ==>
                  n.latest == Some(signal.value.prohibited[|signal.value.prohibited| - 1]) && n.sameAttemptStreak == 1)
            && (signal.None? || signal.value.prohibited == [] ==> n.latest == None && n.sameAttemptStreak == 0)
            && n.world == Some(world) && n.findings == findings
            && n.observationOnlyStreak == 0 && n.noProgressCount == 0 && n.recent == []
    ensures var n, kept := Restore(world, findings, signal, snapshot), Counts(snapshot, world);
            && (kept ==> n.epochs >= snapshot.value.epochs) && (signal.Some? ==> n.epochs >= signal.value.epoch)
            && (n.epochs == 0 || (kept && n.epochs == snapshot.value.epochs)
                || (signal.Some? && n.epochs == signal.value.epoch))
  {
  }
}
