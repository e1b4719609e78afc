// What brings a call into its status (src/modules/calls/call.service.ts:99-321): every change of a call record has one
// event as its cause, and the record tells which.
module CallCauses {
  import opened Common
  import opened Calls
  import opened CallLifecycle

  // The events that may change call `id` in this state.
  ghost predicate Entitled(s: State, e: Event, id: Id) {
    match e
    case Ring(call, caller, callee, _) => call == id && id !in s.calls && caller != callee
    case Accept(call, user, _) =>
      call == id && id in s.calls && s.calls[id].status == Calling && user == s.calls[id].callee
    case Reject(call, user, _) =>
      call == id && id in s.calls && s.calls[id].status == Calling && user == s.calls[id].callee
    case Miss(call, _) => call == id && id in s.calls && s.calls[id].status == Calling
    case EndCommit(op) =>
      && op in s.enders && s.enders[op].call == id && s.enders[op].endedAt.Some? && id in s.calls
      && (s.calls[id].status == Calling || s.calls[id].status == CallStatus.Accepted)
      && (s.enders[op].user == s.calls[id].caller || s.enders[op].user == s.calls[id].callee)
    case _ => false
  }

  ghost predicate SamePeople(before: Call, after: Call) {
    after.caller == before.caller && after.callee == before.callee && after.conversation == before.conversation
  }

  ghost predicate ClosedBy(after: Call, status: CallStatus, at: Instant, reason: EndReason) {
    && after.status == status && after.startedAt == None
    && after.endedAt == Some(at) && after.endReason == Some(reason) && after.duration == 0
  }

  // What they make of it.
  ghost predicate Outcome(s: State, e: Event, id: Id, after: Call)
    requires Entitled(s, e, id)
  {
    match e
    case Ring(_, caller, callee, conversation) =>
      && after.caller == caller && after.callee == callee && after.conversation == conversation
      && after.status == Calling && after.startedAt == None && after.endedAt == None && after.endReason == None
      && after.duration == 0
    case Accept(_, _, at) =>
      && SamePeople(s.calls[id], after) && after.status == CallStatus.Accepted && after.startedAt == Some(at)
      && after.endedAt == None && after.endReason == None && after.duration == 0
    case Reject(_, _, at) => SamePeople(s.calls[id], after) && ClosedBy(after, Rejected, at, CalleeReject)
    case Miss(_, at) => SamePeople(s.calls[id], after) && ClosedBy(after, Missed, at, Timeout)
    case EndCommit(op) =>
      && SamePeople(s.calls[id], after) && after.status == Ended && after.startedAt == s.calls[id].startedAt
      && after.endedAt == s.enders[op].endedAt && after.endReason == Some(s.enders[op].reason)
      && after.duration == s.enders[op].duration
  }

  // An entitled event has exactly its outcome; any other leaves the call as it is.
  lemma ChangesAreEntitled(s: State, e: Event, id: Id)
    requires Invariant(s)
    ensures Entitled(s, e, id) ==> id in Step(s, e).calls && Outcome(s, e, id, Step(s, e).calls[id])
    ensures !Entitled(s, e, id) ==>
      (id in Step(s, e).calls <==> id in s.calls) && (id in s.calls ==> Step(s, e).calls[id] == s.calls[id])
  {
    match e
    case Ring(_, _, _, _) =>
    case Accept(_, _, _) => AnswersAreEntitled(s, e, id);
    case Reject(_, _, _) => AnswersAreEntitled(s, e, id);
    case Miss(_, _) => AnswersAreEntitled(s, e, id);
    case EndCommit(op) => assert Step(s, e) == StepEndCommit(s, op);
    case EndRead(_, _, _, _) => assert Step(s, e).calls == s.calls;
    case EndStamp(_, _) => assert Step(s, e).calls == s.calls;
    case Reconcile(_) => assert Step(s, e).calls == s.calls;
    case WriteSummary(_, _) => assert Step(s, e).calls == s.calls;
    case Chat(_, _) => assert Step(s, e).calls == s.calls;
  }

  lemma AnswersAreEntitled(s: State, e: Event, id: Id)
    requires Invariant(s) && (e.Accept? || e.Reject? || e.Miss?)
    ensures Entitled(s, e, id) ==> id in Step(s, e).calls && Outcome(s, e, id, Step(s, e).calls[id])
    ensures !Entitled(s, e, id) ==>
      (id in Step(s, e).calls <==> id in s.calls) && (id in s.calls ==> Step(s, e).calls[id] == s.calls[id])
  {
    if id in s.calls {
      assert WellFormed(s.calls[id]);
    }
  }

  lemma {:induction false} RunLast(s: State, events: seq<Event>, last: Event)
    ensures Run(s, events + [last]) == Step(Run(s, events), last)
    decreases |events|
  {
    if events == [] {
      assert (events + [last])[1..] == [];
      assert Run(Step(s, last), []) == Step(s, last);
    } else {
      assert (events + [last])[1..] == events[1..] + [last];
      RunLast(Step(s, events[0]), events[1..], last);
    }
  }

  // The i-th event was entitled to make the call what it is at the end.
  ghost predicate IsCause(events: seq<Event>, i: nat, id: Id, call: Call)
    requires i < |events|
  {
    Entitled(Run(EMPTY, events[..i]), events[i], id) && Outcome(Run(EMPTY, events[..i]), events[i], id, call)
  }

  // In every reachable state every call is what some entitled event has made of it.
  lemma {:induction false} EveryCallHasItsCause(events: seq<Event>, id: Id)
    requires id in Run(EMPTY, events).calls
    ensures exists i: nat :: i < |events| && IsCause(events, i, id, Run(EMPTY, events).calls[id])
    decreases |events|
  {
    if events == [] {
    } else {
      var n := |events| - 1;
      var front, last := events[..n], events[n];
      assert events == front + [last];
      RunLast(EMPTY, front, last);
      RunKeepsInvariant(EMPTY, front);
      var s := Run(EMPTY, front);
      ChangesAreEntitled(s, last, id);
      if Entitled(s, last, id) {
        assert IsCause(events, n, id, Run(EMPTY, events).calls[id]);
      } else {
        EveryCallHasItsCause(front, id);
        var i: nat :| i < |front| && IsCause(front, i, id, s.calls[id]);
        assert front[..i] == events[..i];
        assert IsCause(events, i, id, Run(EMPTY, events).calls[id]);
      }
    }
  }

  // So the record names its cause: who answered or when the bell stopped, and who hung up.
  lemma StatusTellsTheCause(events: seq<Event>, id: Id)
    requires id in Run(EMPTY, events).calls
    ensures var c := Run(EMPTY, events).calls[id];
      match c.status
      case Calling => Ring(id, c.caller, c.callee, c.conversation) in events
      case Accepted => c.startedAt.Some? && Accept(id, c.callee, c.startedAt.value) in events
      case Rejected => c.endedAt.Some? && Reject(id, c.callee, c.endedAt.value) in events
      case Missed => c.endedAt.Some? && Miss(id, c.endedAt.value) in events
      case Ended => exists op :: EndCommit(op) in events
  {
    EveryCallHasItsCause(events, id);
    var c := Run(EMPTY, events).calls[id];
    var i: nat :| i < |events| && IsCause(events, i, id, c);
    assert events[i] in events;
  }
}
