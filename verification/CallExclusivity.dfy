// Exclusivity of calls without any assumption on time: exactly when a run of single store operations keeps every user
// in at most one active call (src/modules/realtime/realtime-call.service.ts:385-453).
module CallExclusivity {
  import opened Common
  import opened Calls
  import opened CallStart
  import CallServer

  // An attempt inserts its call although one of its users is in an active call by now.
  predicate CreatesOverABusyUser(s: State, e: Event) {
    && e.Create? && e.attempt in s.attempts && s.attempts[e.attempt].pc.Creating?
    && var a := s.attempts[e.attempt];
       a.caller != a.callee && e.permitted && e.call !in s.calls
       && (UserBusy(s.calls, a.caller) || UserBusy(s.calls, a.callee))
  }

  lemma WeakerCallsStayExclusive(before: CallTable, after: CallTable)
    requires OneCallPerUser(before) && Weakens(before, after)
    ensures OneCallPerUser(after)
  {
    forall i, j, user | i in after && j in after && after[i].Active() && after[j].Active()
                        && after[i].Involves(user) && after[j].Involves(user)
      ensures i == j
    {
      assert before[i].Active() && before[j].Active() && before[i].Involves(user) && before[j].Involves(user);
    }
  }

  lemma CreateKeepsIff(s: State, id: Id, permitted: bool, call: Id)
    requires OneCallPerUser(s.calls) && id in s.attempts
    ensures OneCallPerUser(StepCreate(s, id, permitted, call).calls)
      <==> !CreatesOverABusyUser(s, Create(id, permitted, call))
  {
    var a := s.attempts[id];
    if a.pc.Creating? && a.caller != a.callee && permitted && call !in s.calls {
      CallServer.NewCallKeepsIff(s.calls, call, a.caller, a.callee, a.conversation);
    }
  }

  lemma StepKeepsIff(s: State, e: Event)
    requires OneCallPerUser(s.calls)
    ensures OneCallPerUser(Step(s, e).calls) <==> !CreatesOverABusyUser(s, e)
  {
    match e
    case Create(id, permitted, call) =>
      if id in s.attempts {
        CreateKeepsIff(s, id, permitted, call);
      }
    case Accept(call, user, at) => UpdateStaysExclusive(s.calls, call, user, CallError, at, 0);
    case Reject(call, user, at) => UpdateStaysExclusive(s.calls, call, user, CallError, at, 0);
    case Miss(call, at) => UpdateStaysExclusive(s.calls, call, 0, CallError, at, 0);
    case End(call, user, reason, at, duration) => UpdateStaysExclusive(s.calls, call, user, reason, at, duration);
    case _ => assert Step(s, e).calls == s.calls;
  }

  lemma UpdateStaysExclusive(calls: CallTable, id: Id, user: Id, reason: EndReason, at: Instant, duration: int)
    requires OneCallPerUser(calls)
    ensures OneCallPerUser(AcceptCall(calls, id, user, at)) && OneCallPerUser(RejectCall(calls, id, user, at))
    ensures OneCallPerUser(MarkMissed(calls, id, at))
    ensures OneCallPerUser(EndCall(calls, id, user, reason, at, duration))
  {
    UpdatesOnlyWeaken(calls, id, user, reason, at, duration);
    WeakerCallsStayExclusive(calls, AcceptCall(calls, id, user, at));
    WeakerCallsStayExclusive(calls, RejectCall(calls, id, user, at));
    WeakerCallsStayExclusive(calls, MarkMissed(calls, id, at));
    WeakerCallsStayExclusive(calls, EndCall(calls, id, user, reason, at, duration));
  }

  ghost predicate ExclusiveThroughout(s: State, events: seq<Event>)
    decreases |events|
  {
    OneCallPerUser(s.calls) && (events == [] || ExclusiveThroughout(Step(s, events[0]), events[1..]))
  }

  predicate NeverOverABusyUser(s: State, events: seq<Event>)
    decreases |events|
  {
    events == [] || (!CreatesOverABusyUser(s, events[0]) && NeverOverABusyUser(Step(s, events[0]), events[1..]))
  }

  // In every run, however late its attempts act, each user is in at most one active call throughout if and only if
  // no attempt inserts its call when one of its users is in an active call.
  lemma {:induction false} ExclusiveThroughoutIff(s: State, events: seq<Event>)
    requires OneCallPerUser(s.calls)
    ensures ExclusiveThroughout(s, events) <==> NeverOverABusyUser(s, events)
    decreases |events|
  {
    if events == [] {
    } else {
      StepKeepsIff(s, events[0]);
      if !CreatesOverABusyUser(s, events[0]) {
        ExclusiveThroughoutIff(Step(s, events[0]), events[1..]);
      }
    }
  }

  // The five seconds of the locks are enough for that.
  lemma {:induction false} InTimeNeverOverABusyUser(s: State, events: seq<Event>)
    requires Invariant(s) && RunInTime(s, events)
    ensures NeverOverABusyUser(s, events)
    decreases |events|
  {
    if events == [] {
    } else {
      CallStart.StepKeepsInvariant(s, events[0]);
      StepKeepsIff(s, events[0]);
      InTimeNeverOverABusyUser(Step(s, events[0]), events[1..]);
    }
  }
}
