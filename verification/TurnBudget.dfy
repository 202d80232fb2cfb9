/** The turn budget: how long a run can go on when every step is committed through the loop's last-turn guard. */
module TurnBudget {
  import opened Wrappers
  import opened RunStateSpec
  import opened RunStateTheorems
  import opened RunLedger

  /** The step as the loop commits it: the last turn of a run that would go on is turned into a block. */
  function Committed(s: RunState, r: StepResult, consume: bool): StepResult {
    if consume && s.remainingSteps == 1 && r.statusAfter == RunRunning then
      r.(statusAfter := RunBlocked, termination := Some(TurnBudgetExhausted))
    else r
  }

  /** Steps reach the run only as the loop commits them. */
  ghost predicate ThroughTheLoop(s: RunState, op: Op) {
    op.ApplyOp? ==> exists r :: op.step == Committed(s, r, op.consume)
  }

  /** The last turn is spent on a step that only waits, so that the run can go on without a turn left. */
  predicate WaitsOnLastTurn(s: RunState, op: Op) {
    && op.ApplyOp? && op.consume && s.remainingSteps == 1
    && !Terminal(op.step.statusAfter) && op.step.statusAfter != RunRunning
  }

  predicate HasBudget(s: RunState) {
    s.remainingSteps >= 1 || Terminal(s.status)
  }

  /** A run without a turn left has ended, and stays ended, exactly as long as no last turn only waits. */
  lemma BudgetIsKeptExactly(s: RunState, op: Op)
    requires HasBudget(s) && ThroughTheLoop(s, op) && Perform(s, op).Ok?
    ensures HasBudget(Perform(s, op).value) <==> !WaitsOnLastTurn(s, op)
  {
    if op.ApplyOp? {
      StepAdds(s, op.step, op.consume);
    } else {
      OthersAddNothing(s, op);
      if Terminal(s.status) {
        TerminalIsAbsorbing(s, op);
      }
    }
  }

  ghost predicate AllThroughTheLoop(s: RunState, ops: seq<Op>) {
    forall k | 0 <= k < |ops| :: ThroughTheLoop(After(s, ops[..k]), ops[k])
  }

  ghost predicate NeverWaitsOnLastTurn(s: RunState, ops: seq<Op>) {
    forall k | 0 <= k < |ops| :: !WaitsOnLastTurn(After(s, ops[..k]), ops[k])
  }

  lemma BudgetedPrefix(s: RunState, ops: seq<Op>)
    requires ops != [] && AllThroughTheLoop(s, ops) && NeverWaitsOnLastTurn(s, ops)
    ensures var front, op := ops[..|ops| - 1], ops[|ops| - 1];
            && AllThroughTheLoop(s, front) && NeverWaitsOnLastTurn(s, front)
            && ThroughTheLoop(After(s, front), op) && !WaitsOnLastTurn(After(s, front), op)
  {
    var front := ops[..|ops| - 1];
    forall k | 0 <= k < |front|
      ensures ThroughTheLoop(After(s, front[..k]), front[k]) && !WaitsOnLastTurn(After(s, front[..k]), front[k])
    {
      assert front[..k] == ops[..k];
    }
  }

  /** Then no more turns are consumed than the run had, and the run has ended when all of them are. */
  lemma {:induction false} BudgetBoundsTurns(s: RunState, ops: seq<Op>)
    requires HasBudget(s) && AllThroughTheLoop(s, ops) && NeverWaitsOnLastTurn(s, ops)
    ensures HasBudget(After(s, ops))
    ensures Sum(Consumed, Turns(s, ops)) + After(s, ops).remainingSteps == s.remainingSteps
    ensures Sum(Consumed, Turns(s, ops)) == s.remainingSteps ==> Terminal(After(s, ops).status)
  {
    if ops == [] {
    } else {
      var front, op := ops[..|ops| - 1], ops[|ops| - 1];
      BudgetedPrefix(s, ops);
      BudgetBoundsTurns(s, front);
      OneMoreCall(s, ops);
      var before := After(s, front);
      if Perform(before, op).Ok? {
        BudgetIsKeptExactly(before, op);
        if op.ApplyOp? {
          StepAdds(before, op.step, op.consume);
          SumStep(Consumed, Turns(s, front), Turn(op.step, op.consume));
        } else {
          OthersAddNothing(before, op);
        }
      }
    }
  }

  // ---- a last turn that waits ----

  /** Wait on the only turn, be resumed, and go on for `n` more turns. */
  function Overtime(n: nat): seq<Op> {
    if n == 0 then [ApplyOp(SomeStep(RunWaitingUser, [], None), true), ResumeWaitingOp(RunWaitingUser)]
    else Overtime(n - 1) + [ApplyOp(SomeStep(RunRunning, [], None), true)]
  }

  /** Running on world "w" with no turn left. */
  ghost predicate Overdrawn(s: RunState) {
    Valid(s) && s.status == RunRunning && s.remainingSteps == 0 && s.worldId == "w"
  }

  lemma OneMoreTurn(s: RunState)
    requires Overdrawn(s)
    ensures var op := ApplyOp(SomeStep(RunRunning, [], None), true);
            Perform(s, op).Ok? && Overdrawn(Perform(s, op).value) && ThroughTheLoop(s, op)
  {
    var op := ApplyOp(SomeStep(RunRunning, [], None), true);
    ApplyRaisesOnlyUpFront(s, op.step, true);
    ChecksSurviveExactly(s, op);
    assert op.step == Committed(s, op.step, true);
  }

  lemma WaitingStep(s: RunState)
    requires OnLastTurn(s)
    ensures var wait := ApplyOp(SomeStep(RunWaitingUser, [], None), true);
            && ThroughTheLoop(s, wait) && Perform(s, wait).Ok?
            && var n := Perform(s, wait).value;
               Valid(n) && n.status == RunWaitingUser && n.remainingSteps == 0 && n.worldId == "w"
  {
    var wait := ApplyOp(SomeStep(RunWaitingUser, [], None), true);
    ApplyRaisesOnlyUpFront(s, wait.step, true);
    ChecksSurviveExactly(s, wait);
    assert wait.step == Committed(s, wait.step, true);
  }

  lemma ResumingOverdraws(s: RunState)
    requires Valid(s) && s.status == RunWaitingUser && s.remainingSteps == 0 && s.worldId == "w"
    ensures Perform(s, ResumeWaitingOp(RunWaitingUser)).Ok?
    ensures Overdrawn(Perform(s, ResumeWaitingOp(RunWaitingUser)).value)
  {
    ChecksSurviveExactly(s, ResumeWaitingOp(RunWaitingUser));
  }

  /** One more call through the loop, and whether it consumes a turn. */
  lemma LoopCall(s: RunState, ops: seq<Op>, op: Op)
    requires AllThroughTheLoop(s, ops) && ThroughTheLoop(After(s, ops), op) && Perform(After(s, ops), op).Ok?
    ensures AllThroughTheLoop(s, ops + [op]) && After(s, ops + [op]) == Perform(After(s, ops), op).value
    ensures Sum(Consumed, Turns(s, ops + [op]))
         == Sum(Consumed, Turns(s, ops)) + if op.ApplyOp? && op.consume then 1 else 0
  {
    assert (ops + [op])[..|ops|] == ops;
    OneMoreCall(s, ops + [op]);
    LoopStep(s, ops, op);
    if op.ApplyOp? {
      SumStep(Consumed, Turns(s, ops), Turn(op.step, op.consume));
    }
  }

  /** Running on world "w" with one turn left and nothing else going on. */
  ghost predicate OnLastTurn(s: RunState) {
    && Valid(s) && s.status == RunRunning && s.remainingSteps == 1 && s.worldId == "w"
    && s.reconciliation.None? && s.boundary.None?
  }

  lemma OvertimeStarts(s: RunState)
    requires OnLastTurn(s)
    ensures AllThroughTheLoop(s, Overtime(0)) && Overdrawn(After(s, Overtime(0)))
    ensures Sum(Consumed, Turns(s, Overtime(0))) == 1
  {
    var wait, resume := ApplyOp(SomeStep(RunWaitingUser, [], None), true), ResumeWaitingOp(RunWaitingUser);
    var first := [wait];
    WaitingStep(s);
    LoopCall(s, [], wait);
    assert [] + [wait] == first;
    ResumingOverdraws(After(s, first));
    LoopCall(s, first, resume);
    assert first + [resume] == Overtime(0);
  }

  lemma LoopStep(s: RunState, ops: seq<Op>, op: Op)
    requires AllThroughTheLoop(s, ops) && ThroughTheLoop(After(s, ops), op)
    ensures AllThroughTheLoop(s, ops + [op])
  {
    var all := ops + [op];
    forall k | 0 <= k < |all| ensures ThroughTheLoop(After(s, all[..k]), all[k]) {
      assert all[..k] == ops[..k];
      assert ops[..|ops|] == ops;
    }
  }

  /** Without that condition the budget bounds nothing: from a single turn, any number of turns. */
  lemma {:induction false} WaitingOutlivesTheBudget(s: RunState, n: nat)
    requires OnLastTurn(s)
    ensures AllThroughTheLoop(s, Overtime(n)) && Overdrawn(After(s, Overtime(n)))
    ensures Sum(Consumed, Turns(s, Overtime(n))) == n + 1
  {
    if n == 0 {
      OvertimeStarts(s);
    } else {
      WaitingOutlivesTheBudget(s, n - 1);
      OvertimeGoesOn(s, Overtime(n - 1));
    }
  }

  lemma SomeLastTurn()
    ensures OnLastTurn(SomeRun(1, 0, None, None))
  {
  }

  lemma OvertimeGoesOn(s: RunState, front: seq<Op>)
    requires AllThroughTheLoop(s, front) && Overdrawn(After(s, front))
    ensures var ops := front + [ApplyOp(SomeStep(RunRunning, [], None), true)];
            && AllThroughTheLoop(s, ops) && Overdrawn(After(s, ops))
            && Sum(Consumed, Turns(s, ops)) == Sum(Consumed, Turns(s, front)) + 1
  {
    OneMoreTurn(After(s, front));
    LoopCall(s, front, ApplyOp(SomeStep(RunRunning, [], None), true));
  }
}
