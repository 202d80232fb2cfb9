/** Cooperative pause and cancel: one pending command, one pause boundary, a bounded history of outcomes. */
module RunControl {
  import opened Wrappers

  datatype ControlKind = Pause | Cancel

  datatype Boundary =
    | BeforePolicy | AfterPolicy | BeforeDispatch | AfterDispatch | AfterCapture | AfterEvaluation
    | WaitingUser | WaitingConfirmation

  datatype OutcomeKind = PauseBoundaryReached | Cancelled | Superseded | RunAlreadyTerminal | BoundaryFailed | Resumed

  datatype Admission = Accepted | Duplicate | Conflict

  datatype Request = Request(id: string, kind: ControlKind)

  datatype Outcome = Outcome(id: string, kind: ControlKind, outcome: OutcomeKind, boundary: Option<Boundary>)

  datatype Control = Control(
    pending: Option<Request>,
    paused: Option<Outcome>,
    outcomes: map<string, Outcome>,
    order: seq<string>,
    maxOutcomes: nat)

  datatype Call =
    | RequestCall(id: string, kind: ControlKind)
    | AcknowledgeCall(boundary: Boundary)
    | FailCall
    | ResolveCall
    | ResumeCall(id: string)
    | RestoreCall(outcome: Outcome)

  datatype Reply = Admitted(admission: Admission) | Reported(outcome: Option<Outcome>) | Refused

  function Fresh(maxOutcomes: nat): Control {
    Control(None, None, map[], [], maxOutcomes)
  }

  /** The oldest outcomes go first when the history is full. */
  function Evict(outcomes: map<string, Outcome>, order: seq<string>, max: nat): (map<string, Outcome>, seq<string>)
    decreases |order|
  {
    if |order| > max then Evict(outcomes - {order[0]}, order[1..], max) else (outcomes, order)
  }

  function Record(c: Control, o: Outcome): Control {
    var kept := Evict(c.outcomes[o.id := o], c.order + [o.id], c.maxOutcomes);
    c.(outcomes := kept.0, order := kept.1)
  }

  function SubmitRequest(c: Control, id: string, kind: ControlKind): (Control, Reply) {
    if id in c.outcomes || (c.pending.Some? && c.pending.value.id == id) then (c, Admitted(Duplicate))
    else if c.paused.Some? then
      if kind == Pause then (c, Admitted(Conflict)) else (c.(pending := Some(Request(id, kind))), Admitted(Accepted))
    else if c.pending.Some? then
      if c.pending.value.kind == Pause && kind == Cancel then
        (Record(c, Outcome(c.pending.value.id, Pause, Superseded, None)).(pending := Some(Request(id, kind))),
         Admitted(Accepted))
      else (c, Admitted(Conflict))
    else (c.(pending := Some(Request(id, kind))), Admitted(Accepted))
  }

  function Preview(request: Request, boundary: Boundary): Outcome {
    Outcome(request.id, request.kind, if request.kind == Pause then PauseBoundaryReached else Cancelled, Some(boundary))
  }

  function Acknowledge(c: Control, boundary: Boundary): (Control, Reply) {
    match c.pending
    case None => (c, Reported(None))
    case Some(request) =>
      var o := Preview(request, boundary);
      (Record(c.(pending := None, paused := if request.kind == Pause then Some(o) else None), o), Reported(Some(o)))
  }

  /** `fail_pending` and `resolve_terminal`. */
  function ClosePending(c: Control, outcome: OutcomeKind): (Control, Reply) {
    match c.pending
    case None => (c, Reported(None))
    case Some(request) =>
      var o := Outcome(request.id, request.kind, outcome, None);
      (Record(c.(pending := None), o), Reported(Some(o)))
  }

  function Resume(c: Control, id: string): (Control, Reply) {
    if c.paused.None? then (c, Refused)
    else if id in c.outcomes then (c, Reported(Some(c.outcomes[id])))
    else
      var o := Outcome(id, Pause, Resumed, None);
      (Record(c.(paused := None), o), Reported(Some(o)))
  }

  function RestorePaused(c: Control, o: Outcome): (Control, Reply) {
    if c.pending.Some? || c.paused.Some? || o.kind != Pause || o.outcome != PauseBoundaryReached then (c, Refused)
    else (Record(c.(paused := Some(o)), o), Reported(Some(o)))
  }

  function Perform(c: Control, call: Call): (Control, Reply) {
    match call
    case RequestCall(id, kind) => SubmitRequest(c, id, kind)
    case AcknowledgeCall(boundary) => Acknowledge(c, boundary)
    case FailCall => ClosePending(c, BoundaryFailed)
    case ResolveCall => ClosePending(c, RunAlreadyTerminal)
    case ResumeCall(id) => Resume(c, id)
    case RestoreCall(o) => RestorePaused(c, o)
  }
}

/** What the protocol keeps over every sequence of calls, and exactly which calls break it. */
module RunControlTheorems {
  import opened Wrappers
  import opened RunControl

  ghost predicate DuplicateFree(order: seq<string>) {
    forall i, j | 0 <= i < j < |order| :: order[i] != order[j]
  }

  /** The history: no identity twice, one outcome per identity, at most `maxOutcomes` of them. */
  ghost predicate SoundHistory(c: Control) {
    && c.maxOutcomes >= 1
    && DuplicateFree(c.order)
    && (forall id :: id in c.order <==> id in c.outcomes)
    && |c.order| <= c.maxOutcomes
    && (forall id | id in c.outcomes :: c.outcomes[id].id == id)
  }

  /** The history is sound, the pending command is not in it, and only a cancel can be pending at a pause. */
  ghost predicate Inv(c: Control) {
    && SoundHistory(c)
    && (c.pending.Some? ==> c.pending.value.id !in c.outcomes)
    && (c.paused.Some? && c.pending.Some? ==> c.pending.value.kind == Cancel)
  }

  /** Not: resuming a pause under the pending command's identity, or restoring an outcome that is already logged. */
  predicate FreshIdentity(c: Control, call: Call) {
    match call
    case ResumeCall(id) => !(c.paused.Some? && c.pending.Some? && c.pending.value.id == id)
    case RestoreCall(o) =>
      !(c.pending.None? && c.paused.None? && o.kind == Pause && o.outcome == PauseBoundaryReached && o.id in c.outcomes)
    case _ => true
  }

  /** Not: a cancel under a new identity at a pause where a command is pending. */
  predicate NoSecondCancel(c: Control, call: Call) {
    !(call.RequestCall? && call.kind == Cancel && c.paused.Some? && c.pending.Some?
      && call.id !in c.outcomes && call.id != c.pending.value.id)
  }

  lemma EvictOne(outcomes: map<string, Outcome>, order: seq<string>, max: nat)
    requires |order| <= max + 1
    ensures Evict(outcomes, order, max) ==
            if |order| > max then (outcomes - {order[0]}, order[1..]) else (outcomes, order)
  {
  }

  /** Recording a new identity evicts at most the oldest one. */
  lemma RecordIs(c: Control, o: Outcome)
    requires |c.order| <= c.maxOutcomes
    ensures Record(c, o) ==
              if |c.order| < c.maxOutcomes then c.(outcomes := c.outcomes[o.id := o], order := c.order + [o.id])
              else c.(outcomes := c.outcomes[o.id := o] - {(c.order + [o.id])[0]}, order := (c.order + [o.id])[1..])
  {
    EvictOne(c.outcomes[o.id := o], c.order + [o.id], c.maxOutcomes);
  }

  lemma RecordKeeps(c: Control, o: Outcome)
    requires Inv(c) && o.id !in c.outcomes
    requires c.pending.Some? ==> c.pending.value.id != o.id
    ensures Inv(Record(c, o))
    ensures o.id in Record(c, o).outcomes && Record(c, o).outcomes[o.id] == o
    ensures Record(c, o).outcomes.Keys <= c.outcomes.Keys + {o.id}
    ensures Record(c, o).pending == c.pending && Record(c, o).paused == c.paused
  {
    RecordIs(c, o);
    var r := Record(c, o);
    if |c.order| == c.maxOutcomes {
      forall id ensures id in r.order <==> id in r.outcomes {
        assert (c.order + [o.id])[1..] == c.order[1..] + [o.id];
        assert c.order == [c.order[0]] + c.order[1..];
      }
    }
  }

  /** Recording an identity the history already holds corrupts it, evicted or not. */
  lemma RecordAgainBreaks(c: Control, o: Outcome)
    requires SoundHistory(c) && o.id in c.outcomes
    ensures !SoundHistory(Record(c, o))
  {
    RecordIs(c, o);
    var i :| 0 <= i < |c.order| && c.order[i] == o.id;
    var r := Record(c, o);
    if |c.order| < c.maxOutcomes {
      assert r.order[i] == r.order[|c.order|];
    } else if i == 0 {
      assert r.order[|r.order| - 1] == o.id;
      assert o.id in r.order && o.id !in r.outcomes;
    } else {
      assert r.order[i - 1] == r.order[|r.order| - 1];
    }
  }

  /** A call keeps the invariant exactly when its identity is fresh. */
  lemma CallKeepsExactlyWhenFresh(c: Control, call: Call)
    requires Inv(c)
    ensures Inv(Perform(c, call).0) <==> FreshIdentity(c, call)
  {
    match call
    case RequestCall(id, kind) =>
      if c.pending.Some? && c.pending.value.kind == Pause && c.paused.None? {
        var o := Outcome(c.pending.value.id, Pause, Superseded, None);
        RecordKeeps(c.(pending := None), o);
        SamePendingElsewhere(c, o);
      }
    case AcknowledgeCall(boundary) =>
      if c.pending.Some? {
        var o := Preview(c.pending.value, boundary);
        RecordKeeps(c.(pending := None, paused := if c.pending.value.kind == Pause then Some(o) else None), o);
      }
    case FailCall =>
      if c.pending.Some? {
        RecordKeeps(c.(pending := None), Outcome(c.pending.value.id, c.pending.value.kind, BoundaryFailed, None));
      }
    case ResolveCall =>
      if c.pending.Some? {
        RecordKeeps(c.(pending := None), Outcome(c.pending.value.id, c.pending.value.kind, RunAlreadyTerminal, None));
      }
    case ResumeCall(id) =>
      if c.paused.Some? && id !in c.outcomes {
        var o := Outcome(id, Pause, Resumed, None);
        RecordIs(c.(paused := None), o);
        if FreshIdentity(c, call) {
          RecordKeeps(c.(paused := None), o);
        } else {
          RecordKeeps(c.(paused := None, pending := None), o);
          SamePendingElsewhere(c.(paused := None), o);
        }
      }
    case RestoreCall(o) =>
      if !RestorePaused(c, o).1.Refused? {
        if o.id in c.outcomes {
          RecordAgainBreaks(c.(paused := Some(o)), o);
        } else {
          RecordKeeps(c.(paused := Some(o)), o);
        }
      }
  }

  /** Recording does not read the pending command. */
  lemma SamePendingElsewhere(c: Control, o: Outcome)
    ensures Record(c.(pending := None), o).outcomes == Record(c, o).outcomes
    ensures Record(c.(pending := None), o).order == Record(c, o).order
    ensures Record(c, o).pending == c.pending && Record(c, o).paused == c.paused
  {
  }

  // ---- runs and their ledger ----

  datatype Ledger = Ledger(accepted: multiset<string>, settled: multiset<string>)

  datatype Run = Run(control: Control, ledger: Ledger)

  /** The command identity a call settles: it closes the pending command, or supersedes it. */
  function Settles(c: Control, call: Call): multiset<string> {
    match call
    case RequestCall(id, kind) =>
      if c.paused.None? && c.pending.Some? && Perform(c, call).1 == Admitted(Accepted)
      then multiset{c.pending.value.id}
      else multiset{}
    case AcknowledgeCall(_) => PendingIds(c)
    case FailCall => PendingIds(c)
    case ResolveCall => PendingIds(c)
    case _ => multiset{}
  }

  function PendingIds(c: Control): multiset<string> {
    if c.pending.Some? then multiset{c.pending.value.id} else multiset{}
  }

  function Accepts(c: Control, call: Call): multiset<string> {
    if call.RequestCall? && Perform(c, call).1 == Admitted(Accepted) then multiset{call.id} else multiset{}
  }

  /** A settled identity gets its outcome logged in the very call that settles it. */
  lemma SettledIsLogged(c: Control, call: Call, id: string)
    requires Inv(c) && id in Settles(c, call)
    ensures id in Perform(c, call).0.outcomes && id !in c.outcomes
    ensures var o := Perform(c, call).0.outcomes[id];
            && o.id == id && o.kind == c.pending.value.kind
            && o.outcome == match call
                            case RequestCall(_, _) => Superseded
                            case FailCall => BoundaryFailed
                            case ResolveCall => RunAlreadyTerminal
                            case _ => if o.kind == Pause then PauseBoundaryReached else Cancelled
  {
    match call
    case RequestCall(_, kind) =>
      var o := Outcome(id, Pause, Superseded, None);
      RecordKeeps(c.(pending := None), o);
      SamePendingElsewhere(c, o);
    case AcknowledgeCall(boundary) =>
      var o := Preview(c.pending.value, boundary);
      RecordKeeps(c.(pending := None, paused := if c.pending.value.kind == Pause then Some(o) else None), o);
    case FailCall => RecordKeeps(c.(pending := None), Outcome(id, c.pending.value.kind, BoundaryFailed, None));
    case ResolveCall => RecordKeeps(c.(pending := None), Outcome(id, c.pending.value.kind, RunAlreadyTerminal, None));
  }

  function After(start: Control, calls: seq<Call>): Run {
    if calls == [] then Run(start, Ledger(multiset{}, multiset{}))
    else
      var before, call := After(start, calls[..|calls| - 1]), calls[|calls| - 1];
      Run(Perform(before.control, call).0,
          Ledger(before.ledger.accepted + Accepts(before.control, call),
                 before.ledger.settled + Settles(before.control, call)))
  }

  /** Every accepted command is either still pending or settled, once each. */
  ghost predicate Conserved(r: Run) {
    r.ledger.accepted == r.ledger.settled + PendingIds(r.control)
  }

  /** What stays in the pending slot, without looking at the history. */
  lemma PendingAfter(c: Control, call: Call)
    ensures Perform(c, call).0.pending ==
              match call
              case RequestCall(id, kind) =>
                if Perform(c, call).1 == Admitted(Accepted) then Some(Request(id, kind)) else c.pending
              case ResumeCall(_) => c.pending
              case RestoreCall(_) => c.pending
              case _ => None
  {
  }

  /** One call conserves commands exactly when it is not a second cancel at a pause. */
  lemma CallConservesExactly(c: Control, call: Call)
    ensures PendingIds(c) + Accepts(c, call) == Settles(c, call) + PendingIds(Perform(c, call).0)
       <==> NoSecondCancel(c, call)
  {
    PendingAfter(c, call);
    match call
    case RequestCall(id, kind) => RequestConservesExactly(c, id, kind);
    case _ =>
  }

  lemma RequestConservesExactly(c: Control, id: string, kind: ControlKind)
    ensures PendingIds(c) + Accepts(c, RequestCall(id, kind)) ==
              Settles(c, RequestCall(id, kind)) + PendingIds(Perform(c, RequestCall(id, kind)).0)
       <==> NoSecondCancel(c, RequestCall(id, kind))
  {
    var call := RequestCall(id, kind);
    PendingAfter(c, call);
    if c.paused.Some? && c.pending.Some? && Perform(c, call).1 == Admitted(Accepted) {
      assert |PendingIds(c) + Accepts(c, call)| == 2;
      assert |Settles(c, call) + PendingIds(Perform(c, call).0)| == 1;
    }
  }

  ghost predicate CallersBehave(start: Control, calls: seq<Call>) {
    forall k | 0 <= k < |calls| ::
      var c := After(start, calls[..k]).control; FreshIdentity(c, calls[k]) && NoSecondCancel(c, calls[k])
  }

  lemma BehavedPrefix(start: Control, calls: seq<Call>, n: nat)
    requires n <= |calls| && CallersBehave(start, calls)
    ensures CallersBehave(start, calls[..n])
  {
    forall k | 0 <= k < n
      ensures var c := After(start, calls[..n][..k]).control;
              FreshIdentity(c, calls[..n][k]) && NoSecondCancel(c, calls[..n][k])
    {
      assert calls[..n][..k] == calls[..k];
    }
  }

  /**
   Over every sequence of calls by well-behaved callers: the history is duplicate-free, equals the outcome keys and
   stays bounded; a paused run has nothing or a cancel pending; every acceptance is pending or settled exactly once.
   */
  lemma {:induction false} ProtocolHolds(max: nat, calls: seq<Call>)
    requires max >= 1 && CallersBehave(Fresh(max), calls)
    ensures Inv(After(Fresh(max), calls).control) && Conserved(After(Fresh(max), calls))
  {
    if calls == [] {
    } else {
      var front, call := calls[..|calls| - 1], calls[|calls| - 1];
      BehavedPrefix(Fresh(max), calls, |calls| - 1);
      ProtocolHolds(max, front);
      var c := After(Fresh(max), front).control;
      CallKeepsExactlyWhenFresh(c, call);
      CallConservesExactly(c, call);
      ConservationStep(After(Fresh(max), front).ledger, PendingIds(c), Accepts(c, call), Settles(c, call),
                       PendingIds(Perform(c, call).0));
    }
  }

  lemma ConservationStep(l: Ledger, pending: multiset<string>, accepted: multiset<string>, settled: multiset<string>,
                         next: multiset<string>)
    requires l.accepted == l.settled + pending && pending + accepted == settled + next
    ensures l.accepted + accepted == l.settled + settled + next
  {
    calc {
      l.accepted + accepted;
      l.settled + (pending + accepted);
      l.settled + (settled + next);
      l.settled + settled + next;
    }
  }

  /** A pending cancel leaves the slot only by being settled, never for a pause. */
  lemma CancelIsNotDisplaced(c: Control, call: Call)
    requires Inv(c) && NoSecondCancel(c, call) && c.pending.Some? && c.pending.value.kind == Cancel
    ensures Perform(c, call).0.pending == c.pending || c.pending.value.id in Settles(c, call)
    ensures Perform(c, call).0.pending.Some? ==> Perform(c, call).0.pending.value.kind == Cancel
  {
  }

  lemma AfterOneMore(start: Control, front: seq<Call>, call: Call)
    ensures After(start, front + [call]) ==
              var before := After(start, front);
              Run(Perform(before.control, call).0,
                  Ledger(before.ledger.accepted + Accepts(before.control, call),
                         before.ledger.settled + Settles(before.control, call)))
  {
    assert (front + [call])[..|front + [call]| - 1] == front;
  }

  /** The breach the conditions rule out: a second cancel at a pause overwrites the first, which gets no outcome. */
  lemma SecondCancelLosesTheFirst(c: Control, second: string)
    requires Inv(c) && c.paused.Some? && c.pending.Some?
    requires second !in c.outcomes && second != c.pending.value.id
    ensures var n := Perform(c, RequestCall(second, Cancel));
            && n.1 == Admitted(Accepted) && n.0.pending == Some(Request(second, Cancel))
            && c.pending.value.id !in n.0.outcomes && Settles(c, RequestCall(second, Cancel)) == multiset{}
  {
  }

  function ToPause(id: string): seq<Call> {
    [RequestCall(id, Pause), AcknowledgeCall(BeforePolicy)]
  }

  function PauseOf(id: string): Outcome {
    Outcome(id, Pause, PauseBoundaryReached, Some(BeforePolicy))
  }

  lemma ThenCall(start: Control, calls: seq<Call>, c: Control, call: Call)
    requires After(start, calls).control == c
    ensures After(start, calls + [call]).control == Perform(c, call).0
  {
    AfterOneMore(start, calls, call);
  }

  lemma PausedIsReachable(max: nat, id: string)
    requires max >= 1
    ensures After(Fresh(max), ToPause(id)).control
            == Control(None, Some(PauseOf(id)), map[id := PauseOf(id)], [id], max)
  {
    var request := [RequestCall(id, Pause)];
    assert [] + request == request && request + [AcknowledgeCall(BeforePolicy)] == ToPause(id);
    ThenCall(Fresh(max), [], Fresh(max), RequestCall(id, Pause));
    ThenCall(Fresh(max), request, Fresh(max).(pending := Some(Request(id, Pause))), AcknowledgeCall(BeforePolicy));
    RecordIs(Fresh(max).(paused := Some(PauseOf(id))), PauseOf(id));
  }

  /** A pause that was acknowledged and then given a cancel; three calls away from a fresh control. */
  lemma CancelAtAPauseIsReachable(max: nat, id: string, first: string)
    requires max >= 1 && id != first
    ensures After(Fresh(max), ToPause(id) + [RequestCall(first, Cancel)]).control
         == Control(Some(Request(first, Cancel)), Some(PauseOf(id)), map[id := PauseOf(id)], [id], max)
  {
    PausedIsReachable(max, id);
    ThenCall(Fresh(max), ToPause(id), Control(None, Some(PauseOf(id)), map[id := PauseOf(id)], [id], max),
             RequestCall(first, Cancel));
  }

  // ---- replies and pauses ----

  /** The identity was settled before, or is the one pending. */
  predicate Known(c: Control, id: string) {
    id in c.outcomes || (c.pending.Some? && c.pending.value.id == id)
  }

  /** A pause comes too late once anything is under way; a cancel only where another cancel is, outside a pause. */
  predicate InTheWay(c: Control, kind: ControlKind) {
    match kind
    case Pause => c.paused.Some? || c.pending.Some?
    case Cancel => c.paused.None? && c.pending.Some? && c.pending.value.kind == Cancel
  }

  /** Exactly when a request is a duplicate, conflicts or is accepted; only an accepted one changes anything. */
  lemma ReplyIs(c: Control, id: string, kind: ControlKind)
    ensures var (n, reply) := SubmitRequest(c, id, kind);
            && (reply == Admitted(Duplicate) <==> Known(c, id))
            && (reply == Admitted(Conflict) <==> !Known(c, id) && InTheWay(c, kind))
            && (reply == Admitted(Accepted) <==> !Known(c, id) && !InTheWay(c, kind))
            && (reply == Admitted(Accepted) ==> n.pending == Some(Request(id, kind)) && n.paused == c.paused)
            && (reply != Admitted(Accepted) ==> n == c)
  {
  }

  /** The run is at a pause from an acknowledged or restored pause on, until a resume or an acknowledged cancel. */
  lemma PausedIs(c: Control, call: Call)
    ensures Perform(c, call).0.paused ==
              match call
              case RequestCall(_, _) => c.paused
              case AcknowledgeCall(boundary) =>
                if c.pending.None? then c.paused
                else if c.pending.value.kind == Cancel then None
                else Some(Outcome(c.pending.value.id, Pause, PauseBoundaryReached, Some(boundary)))
              case FailCall => c.paused
              case ResolveCall => c.paused
              case ResumeCall(id) => if id in c.outcomes then c.paused else None
              case RestoreCall(o) => if Perform(c, call).1 == Refused then c.paused else Some(o)
    ensures call.ResumeCall? ==> (Perform(c, call).1 == Refused <==> c.paused.None?)
    ensures call.RestoreCall? ==>
              (Perform(c, call).1 != Refused <==>
                 c.pending.None? && c.paused.None? && call.outcome.kind == Pause
                 && call.outcome.outcome == PauseBoundaryReached)
  {
  }

  /** What a settled command is told: its own outcome, at the boundary that acknowledged it. */
  lemma AcknowledgedAt(c: Control, boundary: Boundary)
    requires Inv(c) && c.pending.Some?
    ensures var o := Outcome(c.pending.value.id, c.pending.value.kind,
                             if c.pending.value.kind == Pause then PauseBoundaryReached else Cancelled, Some(boundary));
            && Acknowledge(c, boundary).1 == Reported(Some(o))
            && o.id in Acknowledge(c, boundary).0.outcomes && Acknowledge(c, boundary).0.outcomes[o.id] == o
  {
    var o := Preview(c.pending.value, boundary);
    RecordKeeps(c.(pending := None, paused := if c.pending.value.kind == Pause then Some(o) else None), o);
  }

  // ---- what the conditions on identities rule out ----

  /** Resuming under the pending command's identity leaves the history sound, but that command is now logged. */
  lemma ResumeLogsThePending(c: Control)
    requires Inv(c) && c.paused.Some? && c.pending.Some?
    ensures var n := Perform(c, ResumeCall(c.pending.value.id)).0;
            SoundHistory(n) && n.pending == c.pending && c.pending.value.id in n.outcomes && !Inv(n)
  {
    var o := Outcome(c.pending.value.id, Pause, Resumed, None);
    RecordKeeps(c.(paused := None, pending := None), o);
    SamePendingElsewhere(c.(paused := None), o);
  }

  /** The next call that settles it then breaks the history. */
  lemma SettlingALoggedCommandBreaks(c: Control, call: Call)
    requires SoundHistory(c) && c.pending.Some? && c.pending.value.id in c.outcomes
    requires call.AcknowledgeCall? || call.FailCall? || call.ResolveCall?
    ensures !SoundHistory(Perform(c, call).0)
  {
    match call
    case AcknowledgeCall(boundary) =>
      var o := Preview(c.pending.value, boundary);
      RecordAgainBreaks(c.(pending := None, paused := if c.pending.value.kind == Pause then Some(o) else None), o);
    case FailCall =>
      RecordAgainBreaks(c.(pending := None), Outcome(c.pending.value.id, c.pending.value.kind, BoundaryFailed, None));
    case ResolveCall =>
      RecordAgainBreaks(c.(pending := None),
                        Outcome(c.pending.value.id, c.pending.value.kind, RunAlreadyTerminal, None));
  }

  /** Five calls from a fresh control: the cancel pending at a pause lends its identity to the resume. */
  lemma ResumeFailureIsReachable(max: nat, id: string, first: string)
    requires max >= 1 && id != first
    ensures !SoundHistory(After(Fresh(max), ToPause(id) + [RequestCall(first, Cancel)] + [ResumeCall(first)]
                                            + [AcknowledgeCall(AfterPolicy)]).control)
  {
    var calls := ToPause(id) + [RequestCall(first, Cancel)];
    var c := Control(Some(Request(first, Cancel)), Some(PauseOf(id)), map[id := PauseOf(id)], [id], max);
    CancelAtAPauseIsReachable(max, id, first);
    ThenCall(Fresh(max), calls, c, ResumeCall(first));
    ResumeLogsThePending(c);
    var n := Perform(c, ResumeCall(first)).0;
    ThenCall(Fresh(max), calls + [ResumeCall(first)], n, AcknowledgeCall(AfterPolicy));
    SettlingALoggedCommandBreaks(n, AcknowledgeCall(AfterPolicy));
  }

  /** Restoring keeps the history sound exactly when the outcome is new to it. */
  lemma RestoreKeepsExactly(c: Control, o: Outcome)
    requires Inv(c)
    ensures SoundHistory(Perform(c, RestoreCall(o)).0) <==> FreshIdentity(c, RestoreCall(o))
  {
    if !FreshIdentity(c, RestoreCall(o)) {
      RecordAgainBreaks(c.(paused := Some(o)), o);
    } else {
      CallKeepsExactlyWhenFresh(c, RestoreCall(o));
    }
  }

  function AfterResume(max: nat, id: string, other: string): Control {
    Control(None, None, map[id := PauseOf(id), other := Outcome(other, Pause, Resumed, None)], [id, other], max)
  }

  lemma ResumingLogs(max: nat, id: string, other: string)
    requires max >= 2 && id != other
    ensures Perform(Control(None, Some(PauseOf(id)), map[id := PauseOf(id)], [id], max), ResumeCall(other)).0
         == AfterResume(max, id, other)
  {
    RecordIs(Control(None, None, map[id := PauseOf(id)], [id], max), Outcome(other, Pause, Resumed, None));
    assert [id] + [other] == [id, other];
  }

  lemma ResumedIsReachable(max: nat, id: string, other: string)
    requires max >= 2 && id != other
    ensures After(Fresh(max), ToPause(id) + [ResumeCall(other)]).control == AfterResume(max, id, other)
  {
    PausedIsReachable(max, id);
    ResumingLogs(max, id, other);
    ThenCall(Fresh(max), ToPause(id), Control(None, Some(PauseOf(id)), map[id := PauseOf(id)], [id], max),
             ResumeCall(other));
  }

  /** Four calls from a fresh control: a pause that was resumed is restored once more. */
  lemma RestoreFailureIsReachable(max: nat, id: string, other: string)
    requires max >= 2 && id != other
    ensures !SoundHistory(After(Fresh(max), ToPause(id) + [ResumeCall(other)] + [RestoreCall(PauseOf(id))]).control)
  {
    ResumedIsReachable(max, id, other);
    ThenCall(Fresh(max), ToPause(id) + [ResumeCall(other)], AfterResume(max, id, other), RestoreCall(PauseOf(id)));
    LoggedOnce(AfterResume(max, id, other));
    RestoreKeepsExactly(AfterResume(max, id, other), PauseOf(id));
  }

  lemma LoggedOnce(c: Control)
    requires |c.order| == 2 <= c.maxOutcomes && c.order[0] != c.order[1] && c.outcomes.Keys == {c.order[0], c.order[1]}
    requires forall id | id in c.outcomes :: c.outcomes[id].id == id
    ensures SoundHistory(c)
  {
  }
}
