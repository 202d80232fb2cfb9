/** What holds of the monitor over whole runs: bounded stalls, and pauses that change nothing. */
module MonitorTheorems {
  import opened Wrappers
  import opened TransitionCycle
  import opened ExecutionContracts
  import opened MonitorSpec

  datatype Input = Input(step: Step, findings: Digest, delta: Option<Delta>)

  function StepTo(h: Hashing, limit: nat, m: Monitor, i: Input): Monitor {
    Evaluate(h, limit, m, i.step, i.findings, i.delta).0
  }

  function AdviceOn(h: Hashing, limit: nat, m: Monitor, i: Input): Advice {
    Evaluate(h, limit, m, i.step, i.findings, i.delta).1
  }

  /** The monitor after a run of evaluated steps. */
  function After(h: Hashing, limit: nat, m: Monitor, run: seq<Input>): Monitor {
    if run == [] then m else StepTo(h, limit, After(h, limit, m, run[..|run| - 1]), run[|run| - 1])
  }

  /** The core loop evaluates only steps that carry a task evaluation. */
  ghost predicate Guarded(i: Input) {
    i.step.evaluation.Some?
  }

  // ---- the invariant of every guarded run ----

  ghost predicate Carries(s: Signal, c: FailureCentre) {
    && s.centreDigest == c.digest && s.centrePeriod == c.period && s.centreMembers == c.members
    && s.centreArmed == c.armed && s.kind == c.kind
  }

  ghost predicate Inv(m: Monitor) {
    && m.world.Some?
    && |m.recent| <= MAX_RECENT_TRANSITIONS
    && (m.centre.Some? ==>
          && 1 <= |m.centre.value.members| <= MAX_RECENT_TRANSITIONS && m.centre.value.period >= 1
          && (!m.centre.value.armed ==> m.recovery.Some?))
    && (m.recovery.Some? ==> m.centre.Some? && m.recovery.value.epoch == m.epochs)
  }

  /** The outstanding signal, if any, describes the active centre. */
  ghost predicate SignalDescribesCentre(m: Monitor) {
    m.recovery.Some? && m.centre.Some? ==> Carries(m.recovery.value, m.centre.value)
  }

  lemma {:induction false} DistinctAtMostLength(word: seq<Digest>)
    ensures |WordMembers(word)| <= |word|
    ensures word != [] ==> |WordMembers(word)| >= 1
  {
    if word == [] {
      assert WordMembers(word) == {};
    } else {
      var front, last := word[..|word| - 1], word[|word| - 1];
      DistinctAtMostLength(front);
      assert WordMembers(word) == WordMembers(front) + {last};
    }
  }

  lemma RepeatedWordIsShort(d: seq<Digest>)
    requires RepeatedWord(d).Some?
    ensures 2 <= |RepeatedWord(d).value| <= |d|
  {
    PeriodFromIsLeast(d, 2);
  }

  lemma CycleCentreIsBounded(h: Hashing, recent: seq<TransitionRecord>)
    requires |recent| <= MAX_RECENT_TRANSITIONS && CycleCentre(h, recent).Some?
    ensures var c := CycleCentre(h, recent).value;
            1 <= |c.members| <= MAX_RECENT_TRANSITIONS && c.period >= 2 && !c.armed && c.kind == StateOscillation
  {
    var d := Digests(h, recent);
    RepeatedWordIsShort(d);
    DistinctAtMostLength(RepeatedWord(d).value);
  }

  /** A monitor in the middle of a step: the signal is consumed, nothing is decided yet. */
  ghost predicate MidStep(m: Monitor) {
    m.world.Some? && |m.recent| <= MAX_RECENT_TRANSITIONS && m.recovery.None?
  }

  ghost predicate Kept(result: (Monitor, Advice)) {
    Inv(result.0) && (result.1.recommendation != Block ==> SignalDescribesCentre(result.0))
  }

  lemma RejectRepeatKeeps(h: Hashing, m: Monitor, r: Step, t: TransitionRecord, events: set<Event>)
    requires MidStep(m)
    requires m.centre.Some? ==> 1 <= |m.centre.value.members| <= MAX_RECENT_TRANSITIONS && m.centre.value.period >= 1
    ensures Kept(RejectRepeat(h, m, r, t, events))
  {
  }

  lemma DwellKeeps(h: Hashing, m: Monitor, c: FailureCentre, r: Step, t: TransitionRecord, events: set<Event>,
                   consumed: Option<Signal>)
    requires MidStep(m) && 1 <= |c.members| <= MAX_RECENT_TRANSITIONS && c.period >= 1 && (!c.armed ==> consumed.Some?)
    ensures Kept(Dwell(h, m, c, r, t, events, consumed))
  {
    MembersGrow(c.members, TransitionDigest(h, t));
  }

  lemma NoCentreKeeps(h: Hashing, limit: nat, before: Monitor, m: Monitor, r: Step, t: TransitionRecord,
                      events: set<Event>, findings: Digest, delta: Option<Delta>)
    requires MidStep(m) && m.centre.None?
    ensures Kept(NoCentre(h, limit, before, m, r, t, events, findings, delta))
  {
    if CycleCentre(h, m.recent).Some? {
      CycleCentreIsBounded(h, m.recent);
    }
  }

  lemma AssessKeeps(h: Hashing, limit: nat, before: Monitor, seen: Monitor, r: Step, events: set<Event>,
                    findings: Digest, delta: Option<Delta>)
    requires Inv(before) && seen.world.Some? && seen.recovery.None? && seen.centre == before.centre
    ensures Kept(Assess(h, limit, before, seen, r, events, findings, delta))
  {
    var t := TransitionRecord(AttemptOf(r), r.afterWorld);
    var recorded := seen.(recent := Remember(before.recent, t));
    if before.centre.Some? && (DurableProgress(r, delta) || WorldChanged(before, r)) {
      return;
    }
    if before.recovery.Some? && r.feedback == RECOVERY_REPEAT_REJECTED {
      RejectRepeatKeeps(h, recorded, r, t, events);
      return;
    }
    if before.centre.Some? {
      DwellKeeps(h, recorded, before.centre.value, r, t, events, before.recovery);
      return;
    }
    NoCentreKeeps(h, limit, before, recorded, r, t, events, findings, delta);
  }

  /** Centres stay between 1 and 16 members, and an unarmed centre always has its signal outstanding. */
  lemma InvIsKept(h: Hashing, limit: nat, m: Monitor, i: Input)
    requires Inv(m) && Guarded(i)
    ensures Inv(StepTo(h, limit, m, i))
    ensures AdviceOn(h, limit, m, i).recommendation != Block ==> SignalDescribesCentre(StepTo(h, limit, m, i))
  {
    var r := i.step;
    if r.evaluation != Some(Incomplete) && r.evaluation != Some(Unknown) {
      return;
    }
    var events := DiagnosticEvents(r)
      + {if AnyChange(m, r, i.findings, i.delta) then StateChanged else NoObservedChange};
    var seen := m.(recovery := None, recoveryCount := 0, world := Some(r.afterWorld), findings := i.findings);
    AssessKeeps(h, limit, m, seen, r, events, i.findings, i.delta);
  }

  lemma MembersGrow(members: set<Digest>, d: Digest)
    ensures |members + {d}| == if d in members then |members| else |members| + 1
  {
    if d in members {
      assert members + {d} == members;
    }
  }

  lemma {:induction false} InvOverRuns(h: Hashing, limit: nat, m: Monitor, run: seq<Input>)
    requires Inv(m) && forall k | 0 <= k < |run| :: Guarded(run[k])
    ensures Inv(After(h, limit, m, run))
  {
    if run == [] {
    } else {
      InvOverRuns(h, limit, m, run[..|run| - 1]);
      InvIsKept(h, limit, After(h, limit, m, run[..|run| - 1]), run[|run| - 1]);
    }
  }

  /** Every pause point of a guarded episode has a snapshot its constructor accepts. */
  lemma SnapshotsAreAdmissible(h: Hashing, limit: nat, world: Digest, findings: Digest, run: seq<Input>)
    requires forall k | 0 <= k < |run| :: Guarded(run[k])
    ensures After(h, limit, StartEpisode(world, findings), run).world.Some?
    ensures AdmissibleSnapshot(TakeSnapshot(After(h, limit, StartEpisode(world, findings), run)))
  {
    InvOverRuns(h, limit, StartEpisode(world, findings), run);
  }

  // ---- the stall bound ----

  /** An open task, the world the monitor last saw, and nothing durable. */
  ghost predicate Stuck(world: Digest, i: Input) {
    && (i.step.evaluation == Some(Incomplete) || i.step.evaluation == Some(Unknown))
    && i.step.afterWorld == world
    && !DurableProgress(i.step, i.delta)
  }

  ghost predicate ObservationOnly(world: Digest, i: Input) {
    Stuck(world, i) && !GuiDispatched(i.step)
  }

  ghost predicate BlocksAt(h: Hashing, limit: nat, m: Monitor, run: seq<Input>, k: nat)
    requires k < |run|
  {
    AdviceOn(h, limit, After(h, limit, m, run[..k]), run[k]).recommendation == Block
  }

  ghost predicate BlocksWithin(h: Hashing, limit: nat, m: Monitor, run: seq<Input>, bound: nat) {
    exists k: nat | k < |run| && k < bound :: BlocksAt(h, limit, m, run, k)
  }

  function PatienceFor(limit: nat): nat {
    if limit < 2 then 2 else limit
  }

  lemma {:induction false} AfterFirst(h: Hashing, limit: nat, m: Monitor, run: seq<Input>)
    requires run != []
    ensures After(h, limit, m, run) == After(h, limit, StepTo(h, limit, m, run[0]), run[1..])
  {
    if |run| > 1 {
      AfterFirst(h, limit, m, run[..|run| - 1]);
      assert run[..|run| - 1][1..] == run[1..][..|run[1..]| - 1];
    } else {
      assert run[..0] == [];
    }
  }

  lemma BlockLater(h: Hashing, limit: nat, m: Monitor, run: seq<Input>, bound: nat)
    requires run != [] && BlocksWithin(h, limit, StepTo(h, limit, m, run[0]), run[1..], bound)
    ensures BlocksWithin(h, limit, m, run, bound + 1)
  {
    var k: nat :| k < |run[1..]| && k < bound && BlocksAt(h, limit, StepTo(h, limit, m, run[0]), run[1..], k);
    AfterFirst(h, limit, m, run[..k + 1]);
    assert run[..k + 1][1..] == run[1..][..k];
    assert BlocksAt(h, limit, m, run, k + 1);
  }

  lemma BlockNow(h: Hashing, limit: nat, m: Monitor, run: seq<Input>, bound: nat)
    requires run != [] && bound > 0 && AdviceOn(h, limit, m, run[0]).recommendation == Block
    ensures BlocksWithin(h, limit, m, run, bound)
  {
    assert run[..0] == [];
    assert BlocksAt(h, limit, m, run, 0);
  }

  /** One stuck step inside a centre blocks, or adds a member and leaves the centre armed. */
  lemma StuckStepInCentre(h: Hashing, limit: nat, m: Monitor, i: Input)
    requires Inv(m) && m.centre.Some? && Stuck(m.world.value, i)
    requires AdviceOn(h, limit, m, i).recommendation != Block
    ensures var n := StepTo(h, limit, m, i);
            && Inv(n) && n.world == m.world && n.centre.Some? && n.centre.value.armed
            && |n.centre.value.members| == |m.centre.value.members| + 1
  {
    InvIsKept(h, limit, m, i);
    MembersGrow(m.centre.value.members, TransitionDigest(h, TransitionRecord(AttemptOf(i.step), i.step.afterWorld)));
  }

  /** An active centre blocks a stuck run, GUI steps included, before it could hold a seventeenth member. */
  lemma {:induction false} ActiveCentreBlocks(h: Hashing, limit: nat, m: Monitor, run: seq<Input>)
    requires Inv(m) && m.centre.Some?
    requires forall k | 0 <= k < |run| :: Stuck(m.world.value, run[k])
    requires |run| >= MAX_RECENT_TRANSITIONS + 1 - |m.centre.value.members|
    ensures BlocksWithin(h, limit, m, run, MAX_RECENT_TRANSITIONS + 1 - |m.centre.value.members|)
    decreases |run|
  {
    if AdviceOn(h, limit, m, run[0]).recommendation == Block {
      BlockNow(h, limit, m, run, MAX_RECENT_TRANSITIONS + 1 - |m.centre.value.members|);
    } else {
      StuckStepInCentre(h, limit, m, run[0]);
      var n := StepTo(h, limit, m, run[0]);
      ActiveCentreBlocks(h, limit, n, run[1..]);
      BlockLater(h, limit, m, run, MAX_RECENT_TRANSITIONS + 1 - |n.centre.value.members|);
    }
  }

  /** Outside a centre, an observation-only step opens one or lengthens the streak, which patience bounds. */
  lemma ObservationStepOutsideCentre(h: Hashing, limit: nat, m: Monitor, i: Input)
    requires Inv(m) && m.centre.None? && ObservationOnly(m.world.value, i)
    ensures var n := StepTo(h, limit, m, i);
            && Inv(n) && n.world == m.world
            && (n.centre.Some? ||
                (n.observationOnlyStreak == m.observationOnlyStreak + 1
                 && n.observationOnlyStreak < PatienceFor(limit)))
  {
    InvIsKept(h, limit, m, i);
  }

  lemma {:induction false} ObservationRunBlocks(h: Hashing, limit: nat, m: Monitor, run: seq<Input>, slack: nat)
    requires Inv(m)
    requires forall k | 0 <= k < |run| :: ObservationOnly(m.world.value, run[k])
    requires slack >= 1 && slack >= PatienceFor(limit) - m.observationOnlyStreak
    requires |run| >= slack + MAX_RECENT_TRANSITIONS
    ensures BlocksWithin(h, limit, m, run, slack + MAX_RECENT_TRANSITIONS)
    decreases |run|
  {
    if m.centre.Some? {
      ActiveCentreBlocks(h, limit, m, run);
      var early := MAX_RECENT_TRANSITIONS + 1 - |m.centre.value.members|;
      var k: nat :| k < |run| && k < early && BlocksAt(h, limit, m, run, k);
      assert k < slack + MAX_RECENT_TRANSITIONS;
    } else {
      ObservationStepOutsideCentre(h, limit, m, run[0]);
      var n := StepTo(h, limit, m, run[0]);
      if n.centre.Some? {
        ActiveCentreBlocks(h, limit, n, run[1..]);
        var early := MAX_RECENT_TRANSITIONS + 1 - |n.centre.value.members|;
        BlockLater(h, limit, m, run, early);
        var k: nat :| k < |run| && k < early + 1 && BlocksAt(h, limit, m, run, k);
        assert k < slack + MAX_RECENT_TRANSITIONS;
      } else {
        ObservationRunBlocks(h, limit, n, run[1..], slack - 1);
        BlockLater(h, limit, m, run, slack - 1 + MAX_RECENT_TRANSITIONS);
      }
    }
  }

  /**
   From the start of an episode, any run of evaluated steps that only observe, on an unchanged world and without
   new information, is blocked within max(2, limit) + 16 steps.
   */
  lemma StallBound(h: Hashing, limit: nat, world: Digest, findings: Digest, run: seq<Input>)
    requires forall k | 0 <= k < |run| :: ObservationOnly(world, run[k])
    requires |run| >= PatienceFor(limit) + MAX_RECENT_TRANSITIONS
    ensures BlocksWithin(h, limit, StartEpisode(world, findings), run, PatienceFor(limit) + MAX_RECENT_TRANSITIONS)
  {
    ObservationRunBlocks(h, limit, StartEpisode(world, findings), run, PatienceFor(limit));
  }

  /** The same bound from any point of any guarded episode. */
  lemma StallBoundAnywhere(h: Hashing, limit: nat, world: Digest, findings: Digest, past: seq<Input>, run: seq<Input>)
    requires forall k | 0 <= k < |past| :: Guarded(past[k])
    requires var m := After(h, limit, StartEpisode(world, findings), past);
             m.world.Some? ==> forall k | 0 <= k < |run| :: ObservationOnly(m.world.value, run[k])
    requires |run| >= PatienceFor(limit) + MAX_RECENT_TRANSITIONS
    ensures BlocksWithin(h, limit, After(h, limit, StartEpisode(world, findings), past), run,
                         PatienceFor(limit) + MAX_RECENT_TRANSITIONS)
  {
    InvOverRuns(h, limit, StartEpisode(world, findings), past);
    ObservationRunBlocks(h, limit, After(h, limit, StartEpisode(world, findings), past), run, PatienceFor(limit));
  }

  // ---- why the guard matters ----

  /** A step without a task evaluation consumes the signal and leaves its centre unarmed. */
  lemma UnevaluatedStepDisarms(h: Hashing, limit: nat, m: Monitor, i: Input)
    requires Inv(m) && m.centre.Some? && !m.centre.value.armed && !Guarded(i)
    ensures StepTo(h, limit, m, i).centre == m.centre && StepTo(h, limit, m, i).recovery.None?
    ensures !Inv(StepTo(h, limit, m, i))
  {
  }

  /** Exactly when a step keeps the invariant: it is evaluated, or there is no unarmed centre to disarm. */
  lemma InvIsKeptExactly(h: Hashing, limit: nat, m: Monitor, i: Input)
    requires Inv(m)
    ensures Inv(StepTo(h, limit, m, i)) <==> Guarded(i) || m.centre.None? || m.centre.value.armed
  {
    if Guarded(i) {
      InvIsKept(h, limit, m, i);
    } else if m.centre.Some? && !m.centre.value.armed {
      UnevaluatedStepDisarms(h, limit, m, i);
    }
  }

  ghost predicate Reenters(h: Hashing, c: FailureCentre, i: Input) {
    TransitionDigest(h, TransitionRecord(AttemptOf(i.step), i.step.afterWorld)) in c.members
  }

  ghost predicate Disarmed(m: Monitor) {
    && m.world.Some? && m.centre.Some? && !m.centre.value.armed && m.recovery.None?
    && |m.centre.value.members| <= MAX_RECENT_TRANSITIONS
  }

  lemma DisarmedStep(h: Hashing, limit: nat, m: Monitor, i: Input)
    requires Disarmed(m) && Stuck(m.world.value, i) && Reenters(h, m.centre.value, i)
    ensures var n := StepTo(h, limit, m, i); Disarmed(n) && n.world == m.world && n.centre == m.centre
    ensures AdviceOn(h, limit, m, i).recommendation == Continue
  {
    var d := TransitionDigest(h, TransitionRecord(AttemptOf(i.step), i.step.afterWorld));
    assert m.centre.value.members + {d} == m.centre.value.members;
  }

  /** A stuck step in a disarmed centre blocks exactly when it would be the seventeenth member. */
  lemma DisarmedCentreBlocksExactly(h: Hashing, limit: nat, m: Monitor, i: Input)
    requires Disarmed(m) && Stuck(m.world.value, i)
    ensures AdviceOn(h, limit, m, i).recommendation == Block <==>
              !Reenters(h, m.centre.value, i) && |m.centre.value.members| == MAX_RECENT_TRANSITIONS
  {
    MembersGrow(m.centre.value.members, TransitionDigest(h, TransitionRecord(AttemptOf(i.step), i.step.afterWorld)));
  }

  /** From there a run that keeps re-entering the centre is never blocked, however long. */
  lemma {:induction false} ReenteringADisarmedCentreNeverBlocks(h: Hashing, limit: nat, m: Monitor, run: seq<Input>,
                                                                bound: nat)
    requires Disarmed(m)
    requires forall k | 0 <= k < |run| :: Stuck(m.world.value, run[k]) && Reenters(h, m.centre.value, run[k])
    ensures !BlocksWithin(h, limit, m, run, bound)
    decreases |run|, 0
  {
    forall k: nat | k < |run| && k < bound ensures !BlocksAt(h, limit, m, run, k) {
      StaysDisarmed(h, limit, m, run[..k]);
      DisarmedStep(h, limit, After(h, limit, m, run[..k]), run[k]);
    }
  }

  lemma {:induction false} StaysDisarmed(h: Hashing, limit: nat, m: Monitor, run: seq<Input>)
    requires Disarmed(m)
    requires forall k | 0 <= k < |run| :: Stuck(m.world.value, run[k]) && Reenters(h, m.centre.value, run[k])
    ensures var n := After(h, limit, m, run); Disarmed(n) && n.world == m.world && n.centre == m.centre
  {
    if run == [] {
    } else {
      StaysDisarmed(h, limit, m, run[..|run| - 1]);
      DisarmedStep(h, limit, After(h, limit, m, run[..|run| - 1]), run[|run| - 1]);
    }
  }

  // ---- pause and restore ----

  /** As much of two monitors as decides what happens while a centre is active. */
  ghost predicate SameAuthority(a: Monitor, b: Monitor) {
    a.world == b.world && a.centre == b.centre && a.epochs == b.epochs && (a.recovery.Some? <==> b.recovery.Some?)
  }

  ghost predicate SameAdvice(a: Advice, b: Advice) {
    a.recommendation == b.recommendation && a.reason == b.reason && a.signal == b.signal && a.lifecycle == b.lifecycle
  }

  ghost predicate Alike(x: (Monitor, Advice), y: (Monitor, Advice)) {
    SameAuthority(x.0, y.0) && SameAdvice(x.1, y.1)
  }

  lemma RejectRepeatAlike(h: Hashing, m: Monitor, n: Monitor, r: Step, t: TransitionRecord, events: set<Event>,
                          others: set<Event>)
    requires SameAuthority(m, n) && m.centre.Some?
    ensures Alike(RejectRepeat(h, m, r, t, events), RejectRepeat(h, n, r, t, others))
  {
  }

  lemma DwellAlike(h: Hashing, m: Monitor, n: Monitor, c: FailureCentre, r: Step, t: TransitionRecord,
                   events: set<Event>, others: set<Event>, one: Option<Signal>, other: Option<Signal>)
    requires SameAuthority(m, n) && m.recovery.None? && (one.Some? <==> other.Some?)
    ensures Alike(Dwell(h, m, c, r, t, events, one), Dwell(h, n, c, r, t, others, other))
  {
  }

  lemma AssessAlike(h: Hashing, limit: nat, a: Monitor, b: Monitor, m: Monitor, n: Monitor, r: Step, events: set<Event>,
                    others: set<Event>, findings: Digest, delta: Option<Delta>)
    requires a.world.Some? && a.centre.Some? && SameAuthority(a, b)
    requires SameAuthority(m, n) && m.recovery.None? && m.centre == a.centre
    ensures Alike(Assess(h, limit, a, m, r, events, findings, delta),
                  Assess(h, limit, b, n, r, others, findings, delta))
  {
    var t := TransitionRecord(AttemptOf(r), r.afterWorld);
    var x, y := m.(recent := Remember(a.recent, t)), n.(recent := Remember(b.recent, t));
    RejectRepeatAlike(h, x, y, r, t, events, others);
    DwellAlike(h, x, y, a.centre.value, r, t, events, others, a.recovery, b.recovery);
  }

  lemma UnassessedAlike(h: Hashing, limit: nat, a: Monitor, b: Monitor, i: Input)
    requires SameAuthority(a, b)
    requires i.step.evaluation != Some(Incomplete) && i.step.evaluation != Some(Unknown)
    ensures Alike(Evaluate(h, limit, a, i.step, i.findings, i.delta),
                  Evaluate(h, limit, b, i.step, i.findings, i.delta))
  {
  }

  /** While a centre is active, monitors with the same authority advise alike and keep the same authority. */
  lemma AuthorityDecides(h: Hashing, limit: nat, a: Monitor, b: Monitor, i: Input)
    requires a.world.Some? && a.centre.Some? && SameAuthority(a, b)
    ensures SameAuthority(StepTo(h, limit, a, i), StepTo(h, limit, b, i))
    ensures SameAdvice(AdviceOn(h, limit, a, i), AdviceOn(h, limit, b, i))
  {
    var r := i.step;
    if r.evaluation != Some(Incomplete) && r.evaluation != Some(Unknown) {
      UnassessedAlike(h, limit, a, b, i);
    } else {
      var events := DiagnosticEvents(r)
        + {if AnyChange(a, r, i.findings, i.delta) then StateChanged else NoObservedChange};
      var others := DiagnosticEvents(r)
        + {if AnyChange(b, r, i.findings, i.delta) then StateChanged else NoObservedChange};
      AssessAlike(h, limit, a, b,
        a.(recovery := None, recoveryCount := 0, world := Some(r.afterWorld), findings := i.findings),
        b.(recovery := None, recoveryCount := 0, world := Some(r.afterWorld), findings := i.findings),
        r, events, others, i.findings, i.delta);
    }
  }

  /** Restoring the snapshot and the outstanding signal into the same world restores the authority. */
  lemma RestoreKeepsAuthority(m: Monitor, findings: Digest)
    requires Inv(m) && SignalDescribesCentre(m) && m.centre.Some?
    ensures SameAuthority(m, Restore(m.world.value, findings, m.recovery, Some(TakeSnapshot(m))))
  {
    assert m.centre.value.members != {};
  }

  /** A monitor restored from a sound one into the same world is sound. */
  lemma RestoredIsSound(m: Monitor, findings: Digest)
    requires Inv(m) && SignalDescribesCentre(m)
    ensures Inv(Restore(m.world.value, findings, m.recovery, Some(TakeSnapshot(m))))
  {
    if m.centre.Some? {
      assert m.centre.value.members != {};
    }
  }

  ghost predicate CentreStaysActive(h: Hashing, limit: nat, m: Monitor, run: seq<Input>) {
    forall k | 0 <= k < |run| :: After(h, limit, m, run[..k]).centre.Some?
  }

  ghost predicate AdviseAlikeAt(h: Hashing, limit: nat, a: Monitor, b: Monitor, run: seq<Input>, k: nat)
    requires k < |run|
  {
    SameAdvice(AdviceOn(h, limit, After(h, limit, a, run[..k]), run[k]),
               AdviceOn(h, limit, After(h, limit, b, run[..k]), run[k]))
  }

  /** Same advice at every step and same authority at the end. */
  ghost predicate Indistinguishable(h: Hashing, limit: nat, a: Monitor, b: Monitor, run: seq<Input>) {
    && SameAuthority(After(h, limit, a, run), After(h, limit, b, run))
    && forall k | 0 <= k < |run| :: AdviseAlikeAt(h, limit, a, b, run, k)
  }

  lemma StepKeepsWorldKnown(h: Hashing, limit: nat, m: Monitor, i: Input)
    ensures StepTo(h, limit, m, i).world == Some(i.step.afterWorld)
  {
  }

  lemma {:induction false} AuthorityAfter(h: Hashing, limit: nat, a: Monitor, b: Monitor, run: seq<Input>)
    requires a.world.Some? && SameAuthority(a, b)
    requires CentreStaysActive(h, limit, a, run)
    ensures After(h, limit, a, run).world.Some?
    ensures SameAuthority(After(h, limit, a, run), After(h, limit, b, run))
  {
    if run == [] {
    } else {
      var front, last := run[..|run| - 1], run[|run| - 1];
      PrefixStaysActive(h, limit, a, run, |run| - 1);
      AuthorityAfter(h, limit, a, b, front);
      assert After(h, limit, a, front).centre.Some?;
      AuthorityDecides(h, limit, After(h, limit, a, front), After(h, limit, b, front), last);
      StepKeepsWorldKnown(h, limit, After(h, limit, a, front), last);
    }
  }

  lemma PrefixStaysActive(h: Hashing, limit: nat, m: Monitor, run: seq<Input>, n: nat)
    requires n <= |run| && CentreStaysActive(h, limit, m, run)
    ensures CentreStaysActive(h, limit, m, run[..n])
  {
    forall k | 0 <= k < n ensures After(h, limit, m, run[..n][..k]).centre.Some? {
      assert run[..n][..k] == run[..k];
    }
  }

  lemma AuthorityOverRuns(h: Hashing, limit: nat, a: Monitor, b: Monitor, run: seq<Input>)
    requires a.world.Some? && SameAuthority(a, b)
    requires CentreStaysActive(h, limit, a, run)
    ensures Indistinguishable(h, limit, a, b, run)
  {
    AuthorityAfter(h, limit, a, b, run);
    forall k | 0 <= k < |run| ensures AdviseAlikeAt(h, limit, a, b, run, k) {
      PrefixStaysActive(h, limit, a, run, k);
      AuthorityAfter(h, limit, a, b, run[..k]);
      AuthorityDecides(h, limit, After(h, limit, a, run[..k]), After(h, limit, b, run[..k]), run[k]);
    }
  }

  /** The monitor a new process hydrates from this one's snapshot and outstanding signal, in an unchanged world. */
  function Hydrated(m: Monitor, findings: Digest): Monitor
    requires m.world.Some?
  {
    Restore(m.world.value, findings, m.recovery, Some(TakeSnapshot(m)))
  }

  /**
   Pausing a guarded, never blocked episode at an active centre and restoring it into the same world gives the
   same advice, centre and epoch counter on every later run, until the centre is cleared.
   */
  lemma PauseBisimulation(h: Hashing, limit: nat, world: Digest, start: Digest, findings: Digest, past: seq<Input>,
                          run: seq<Input>)
    requires forall k | 0 <= k < |past| :: Guarded(past[k])
    requires past != [] && !BlocksAt(h, limit, StartEpisode(world, start), past, |past| - 1)
    requires After(h, limit, StartEpisode(world, start), past).centre.Some?
    requires CentreStaysActive(h, limit, After(h, limit, StartEpisode(world, start), past), run)
    ensures After(h, limit, StartEpisode(world, start), past).world.Some?
    ensures Indistinguishable(h, limit, After(h, limit, StartEpisode(world, start), past),
                              Hydrated(After(h, limit, StartEpisode(world, start), past), findings), run)
  {
    var front := past[..|past| - 1];
    InvOverRuns(h, limit, StartEpisode(world, start), front);
    InvIsKept(h, limit, After(h, limit, StartEpisode(world, start), front), past[|past| - 1]);
    var m := After(h, limit, StartEpisode(world, start), past);
    RestoreKeepsAuthority(m, findings);
    AuthorityOverRuns(h, limit, m, Hydrated(m, findings), run);
  }
}
