/** What a run adds up to: its counters and latest facts are those of the steps that were applied, and no others. */
module RunLedger {
  import opened Wrappers
  import opened ExecutionContracts
  import opened RunStateSpec
  import opened RunStateTheorems
  import RunControl
  import R = Reconciliation

  /** A step that was applied, and whether it consumed a turn. */
  datatype Turn = Turn(step: StepResult, consumed: bool)

  /** The applied steps of a sequence of calls, in order. */
  function Turns(s: RunState, ops: seq<Op>): seq<Turn> {
    if ops == [] then []
    else
      var front, op := ops[..|ops| - 1], ops[|ops| - 1];
      Turns(s, front)
      + if op.ApplyOp? && Perform(After(s, front), op).Ok? then [Turn(op.step, op.consume)] else []
  }

  function Sum(of: Turn -> nat, turns: seq<Turn>): nat {
    if turns == [] then 0 else Sum(of, turns[..|turns| - 1]) + of(turns[|turns| - 1])
  }

  function Consumed(t: Turn): nat {
    if t.consumed then 1 else 0
  }

  function Moved(t: Turn): nat {
    if t.step.afterId != t.step.beforeId then 1 else 0
  }

  function Executed(t: Turn): nat {
    |t.step.receipts|
  }

  /** The receipts of which nobody knows whether they arrived. */
  function Uncertain(t: Turn): nat {
    |set k | 0 <= k < |t.step.receipts| && t.step.receipts[k].dispatch == SentUnknown|
  }

  function Waited(t: Turn): nat {
    t.step.waitedMs
  }

  function Decided(kind: string): Turn -> nat {
    (t: Turn) => if t.step.decisionKind == Some(kind) then 1 else 0
  }

  function CountOf(counts: map<string, nat>, kind: string): nat {
    if kind in counts then counts[kind] else 0
  }

  lemma SumStep(of: Turn -> nat, turns: seq<Turn>, t: Turn)
    ensures Sum(of, turns + [t]) == Sum(of, turns) + of(t)
  {
    assert (turns + [t])[..|turns|] == turns;
  }

  lemma {:induction false} UnknownIsUncertain(receipts: seq<Receipt>)
    ensures CountUnknown(receipts) == |set k | 0 <= k < |receipts| && receipts[k].dispatch == SentUnknown|
  {
    var all := set k | 0 <= k < |receipts| && receipts[k].dispatch == SentUnknown;
    if receipts == [] {
      assert all == {};
    } else {
      var front, last := receipts[..|receipts| - 1], |receipts| - 1;
      UnknownIsUncertain(front);
      var before := set k | 0 <= k < |front| && front[k].dispatch == SentUnknown;
      assert all == before + if receipts[last].dispatch == SentUnknown then {last} else {};
    }
  }

  // ---- one call ----

  /** What an applied step adds to each counter. */
  lemma StepAdds(s: RunState, r: StepResult, consume: bool)
    requires Apply(s, r, consume).Ok?
    ensures var n, t := Apply(s, r, consume).value, Turn(r, consume);
            && n.stepCount == s.stepCount + Consumed(t)
            && n.remainingSteps == (if s.remainingSteps >= Consumed(t) then s.remainingSteps - Consumed(t) else 0)
            && n.observationCount == s.observationCount + Moved(t)
            && n.executionCount == s.executionCount + Executed(t)
            && n.sentUnknown == s.sentUnknown + Uncertain(t)
            && n.waitedMs == s.waitedMs + Waited(t)
            && forall kind :: CountOf(n.decisionCounts, kind) == CountOf(s.decisionCounts, kind) + Decided(kind)(t)
  {
    UnknownIsUncertain(r.receipts);
  }

  /** Every other call leaves the counters alone. */
  lemma OthersAddNothing(s: RunState, op: Op)
    requires !op.ApplyOp? && Perform(s, op).Ok?
    ensures var n := Perform(s, op).value;
            && n.stepCount == s.stepCount && n.remainingSteps == s.remainingSteps
            && n.observationCount == s.observationCount && n.executionCount == s.executionCount
            && n.sentUnknown == s.sentUnknown && n.waitedMs == s.waitedMs && n.decisionCounts == s.decisionCounts
  {
  }

  // ---- whole runs ----

  ghost predicate Balanced(s: RunState, n: RunState, turns: seq<Turn>) {
    && n.stepCount == s.stepCount + Sum(Consumed, turns)
    && n.remainingSteps == (if Sum(Consumed, turns) <= s.remainingSteps then s.remainingSteps - Sum(Consumed, turns)
                            else 0)
    && n.observationCount == s.observationCount + Sum(Moved, turns)
    && n.executionCount == s.executionCount + Sum(Executed, turns)
    && n.sentUnknown == s.sentUnknown + Sum(Uncertain, turns)
    && n.waitedMs == s.waitedMs + Sum(Waited, turns)
    && forall kind ::
         CountOf(n.decisionCounts, kind) == CountOf(s.decisionCounts, kind) + Sum(Decided(kind), turns)
  }

  lemma BalanceStep(s: RunState, before: RunState, turns: seq<Turn>, r: StepResult, consume: bool)
    requires Balanced(s, before, turns) && Apply(before, r, consume).Ok?
    ensures Balanced(s, Apply(before, r, consume).value, turns + [Turn(r, consume)])
  {
    var t := Turn(r, consume);
    StepAdds(before, r, consume);
    SumStep(Consumed, turns, t);
    SumStep(Moved, turns, t);
    SumStep(Executed, turns, t);
    SumStep(Uncertain, turns, t);
    SumStep(Waited, turns, t);
    forall kind ensures Sum(Decided(kind), turns + [t]) == Sum(Decided(kind), turns) + Decided(kind)(t) {
      SumStep(Decided(kind), turns, t);
    }
  }

  /** Where one more call leads, and whether it is a turn. */
  lemma OneMoreCall(s: RunState, ops: seq<Op>)
    requires ops != []
    ensures var front, op := ops[..|ops| - 1], ops[|ops| - 1];
            var before, turns := After(s, front), Turns(s, front);
            match Perform(before, op)
            case Raised => After(s, ops) == before && Turns(s, ops) == turns
            case Ok(next) =>
              && After(s, ops) == next
              && Turns(s, ops) == if op.ApplyOp? then turns + [Turn(op.step, op.consume)] else turns
  {
  }

  /** Over every sequence of calls each counter is its start and the sum over the applied steps. */
  lemma {:induction false} CountersAddUp(s: RunState, ops: seq<Op>)
    ensures Balanced(s, After(s, ops), Turns(s, ops))
  {
    if ops == [] {
    } else {
      var front, op := ops[..|ops| - 1], ops[|ops| - 1];
      CountersAddUp(s, front);
      OneMoreCall(s, ops);
      var before := After(s, front);
      if Perform(before, op).Ok? {
        if op.ApplyOp? {
          BalanceStep(s, before, Turns(s, front), op.step, op.consume);
        } else {
          OthersAddNothing(before, op);
        }
      }
    }
  }

  /** The world the run is on, and how the task was evaluated there. */
  ghost predicate OnWorld(s: RunState, n: RunState, turns: seq<Turn>) {
    if turns == [] then n.worldId == s.worldId && n.evaluation == s.evaluation
    else
      var last := turns[|turns| - 1].step;
      n.worldId == last.afterId && n.evaluation == last.evaluation
  }

  /** The applied steps follow on from each other: each starts from the world the one before it ended on. */
  ghost predicate Chained(s: RunState, turns: seq<Turn>) {
    && (turns != [] ==> turns[0].step.beforeId == s.worldId)
    && forall k | 0 < k < |turns| :: turns[k].step.beforeId == turns[k - 1].step.afterId
  }

  /** The effect committed last: that of the last receipt of the last step that has any. */
  function LatestEffect(s: RunState, turns: seq<Turn>): Option<R.CommittedEffect> {
    if turns == [] then s.latestEffect
    else
      var last := turns[|turns| - 1].step.receipts;
      if last == [] then LatestEffect(s, turns[..|turns| - 1])
      else
        var receipt := last[|last| - 1];
        Some(R.CommittedEffect(s.taskRevision, receipt.requestId, receipt.resource, receipt.semanticEffects,
                               receipt.reversibility, receipt.dispatch, receipt.beforeObservation,
                               receipt.afterObservation))
  }

  function LatestFinalization(s: RunState, turns: seq<Turn>): Option<Finalization> {
    if turns == [] then s.finalization
    else
      var last := turns[|turns| - 1].step.finalization;
      if last.Some? then last else LatestFinalization(s, turns[..|turns| - 1])
  }

  ghost predicate FactsStand(s: RunState, n: RunState, turns: seq<Turn>) {
    && OnWorld(s, n, turns) && Chained(s, turns)
    && n.latestEffect == LatestEffect(s, turns) && n.finalization == LatestFinalization(s, turns)
    && n.taskRevision == s.taskRevision && n.goal == s.goal && n.planVersions == s.planVersions
  }

  lemma ChainGrows(s: RunState, turns: seq<Turn>, t: Turn)
    requires Chained(s, turns)
    requires t.step.beforeId == if turns == [] then s.worldId else turns[|turns| - 1].step.afterId
    ensures Chained(s, turns + [t])
  {
    var all := turns + [t];
    forall k | 0 < k < |all| ensures all[k].step.beforeId == all[k - 1].step.afterId {
      assert all[k - 1] == turns[k - 1];
      if k < |turns| {
        assert all[k] == turns[k];
      }
    }
  }

  lemma StepFacts(before: RunState, r: StepResult, consume: bool)
    requires Apply(before, r, consume).Ok?
    ensures var n := Apply(before, r, consume).value;
            && before.worldId == r.beforeId && n.worldId == r.afterId && n.evaluation == r.evaluation
            && n.taskRevision == before.taskRevision && n.goal == before.goal && n.planVersions == before.planVersions
            && n.finalization == (if r.finalization.Some? then r.finalization else before.finalization)
            && n.latestEffect == if r.receipts == [] then before.latestEffect
                                 else Some(LastEffect(r, before.taskRevision))
  {
  }

  lemma TurnKeepsFacts(s: RunState, before: RunState, turns: seq<Turn>, r: StepResult, consume: bool)
    requires FactsStand(s, before, turns) && Apply(before, r, consume).Ok?
    ensures FactsStand(s, Apply(before, r, consume).value, turns + [Turn(r, consume)])
  {
    var all, n := turns + [Turn(r, consume)], Apply(before, r, consume).value;
    assert all[..|turns|] == turns;
    StepFacts(before, r, consume);
    assert LatestEffect(s, all) == if r.receipts == [] then LatestEffect(s, turns)
                                   else Some(LastEffect(r, s.taskRevision));
    assert LatestFinalization(s, all) == if r.finalization.Some? then r.finalization else LatestFinalization(s, turns);
    ChainGrows(s, turns, Turn(r, consume));
  }

  lemma OthersKeepFacts(s: RunState, before: RunState, turns: seq<Turn>, op: Op)
    requires FactsStand(s, before, turns) && !op.ApplyOp? && Perform(before, op).Ok?
    ensures FactsStand(s, Perform(before, op).value, turns)
  {
  }

  /** Over every sequence of calls: where the run is, and what it committed and finalised last. */
  lemma {:induction false} LatestFactsStand(s: RunState, ops: seq<Op>)
    ensures FactsStand(s, After(s, ops), Turns(s, ops))
  {
    if ops == [] {
    } else {
      var front, op := ops[..|ops| - 1], ops[|ops| - 1];
      LatestFactsStand(s, front);
      OneMoreCall(s, ops);
      if Perform(After(s, front), op).Ok? {
        if op.ApplyOp? {
          TurnKeepsFacts(s, After(s, front), Turns(s, front), op.step, op.consume);
        } else {
          OthersKeepFacts(s, After(s, front), Turns(s, front), op);
        }
      }
    }
  }
}
