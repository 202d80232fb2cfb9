/** The run control object: one pending command, one pause, a bounded history, updated in place by each call. */
module RunControlObject {
  import opened Wrappers
  import opened RunControl
  import opened RunControlTheorems

  lemma CallKeeps(c: Control, call: Call)
    ensures Inv(c) && FreshIdentity(c, call) ==> Inv(Perform(c, call).0)
  {
    if Inv(c) {
      CallKeepsExactlyWhenFresh(c, call);
    }
  }

  class CooperativeRunControl {
    var pending: Option<Request>
    var paused: Option<Outcome>
    var outcomes: map<string, Outcome>
    var order: seq<string>
    const maxOutcomes: nat

    function Model(): Control
      reads this
    {
      Control(pending, paused, outcomes, order, maxOutcomes)
    }

    /** A call under a fresh identity keeps the history and the pause sound. */
    ghost predicate Keeps(before: Control, call: Call)
      reads this
    {
      Inv(before) && FreshIdentity(before, call) ==> Inv(Model())
    }

    constructor (maxOutcomes: nat)
      requires maxOutcomes >= 1
      ensures Model() == Fresh(maxOutcomes) && Inv(Model())
    {
      this.maxOutcomes := maxOutcomes;
      pending, paused, outcomes, order := None, None, map[], [];
    }

    method RecordOutcome(o: Outcome)
      modifies this`outcomes, this`order
      ensures Model() == Record(old(Model()), o)
    {
      outcomes := outcomes[o.id := o];
      order := order + [o.id];
      ghost var all, ids := outcomes, order;
      while |order| > maxOutcomes
        invariant Evict(outcomes, order, maxOutcomes) == Evict(all, ids, maxOutcomes)
      {
        outcomes := outcomes - {order[0]};
        order := order[1..];
      }
    }

    method Submit(id: string, kind: ControlKind) returns (admission: Admission)
      modifies this
      ensures (Model(), Admitted(admission)) == SubmitRequest(old(Model()), id, kind)
      ensures Keeps(old(Model()), RequestCall(id, kind))
    {
      CallKeeps(Model(), RequestCall(id, kind));
      if id in outcomes || (pending.Some? && pending.value.id == id) {
        return Duplicate;
      }
      if paused.Some? {
        if kind == Pause {
          return Conflict;
        }
        pending := Some(Request(id, kind));
        return Accepted;
      }
      if pending.Some? {
        if pending.value.kind == Pause && kind == Cancel {
          RecordOutcome(Outcome(pending.value.id, pending.value.kind, Superseded, None));
          pending := Some(Request(id, kind));
          return Accepted;
        }
        return Conflict;
      }
      pending := Some(Request(id, kind));
      return Accepted;
    }

    method AcknowledgeAt(boundary: Boundary) returns (outcome: Option<Outcome>)
      modifies this
      ensures (Model(), Reported(outcome)) == Acknowledge(old(Model()), boundary)
      ensures Keeps(old(Model()), AcknowledgeCall(boundary))
    {
      CallKeeps(Model(), AcknowledgeCall(boundary));
      if pending.None? {
        return None;
      }
      var request := pending.value;
      var o := Preview(request, boundary);
      pending := None;
      paused := if request.kind == Pause then Some(o) else None;
      RecordOutcome(o);
      return Some(o);
    }

    method FailPending() returns (outcome: Option<Outcome>)
      modifies this
      ensures (Model(), Reported(outcome)) == ClosePending(old(Model()), BoundaryFailed)
      ensures Keeps(old(Model()), FailCall)
    {
      CallKeeps(Model(), FailCall);
      outcome := Close(BoundaryFailed);
    }

    method ResolveTerminal() returns (outcome: Option<Outcome>)
      modifies this
      ensures (Model(), Reported(outcome)) == ClosePending(old(Model()), RunAlreadyTerminal)
      ensures Keeps(old(Model()), ResolveCall)
    {
      CallKeeps(Model(), ResolveCall);
      outcome := Close(RunAlreadyTerminal);
    }

    method Close(kind: OutcomeKind) returns (outcome: Option<Outcome>)
      modifies this
      ensures (Model(), Reported(outcome)) == ClosePending(old(Model()), kind)
    {
      if pending.None? {
        return None;
      }
      var o := Outcome(pending.value.id, pending.value.kind, kind, None);
      pending := None;
      RecordOutcome(o);
      return Some(o);
    }

    method ResumeWith(id: string) returns (reply: Reply)
      modifies this
      ensures (Model(), reply) == Resume(old(Model()), id)
      ensures Keeps(old(Model()), ResumeCall(id))
    {
      CallKeeps(Model(), ResumeCall(id));
      if paused.None? {
        return Refused;
      }
      if id in outcomes {
        return Reported(Some(outcomes[id]));
      }
      var o := Outcome(id, Pause, Resumed, None);
      paused := None;
      RecordOutcome(o);
      return Reported(Some(o));
    }

    method Restore(o: Outcome) returns (reply: Reply)
      modifies this
      ensures (Model(), reply) == RestorePaused(old(Model()), o)
      ensures Keeps(old(Model()), RestoreCall(o))
    {
      CallKeeps(Model(), RestoreCall(o));
      if pending.Some? || paused.Some? || o.kind != Pause || o.outcome != PauseBoundaryReached {
        return Refused;
      }
      paused := Some(o);
      RecordOutcome(o);
      return Reported(Some(o));
    }
  }
}
