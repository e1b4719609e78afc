// From ringing to the summary message (src/modules/calls/call.service.ts:166-401).
//
// endCall reads the call, takes the time, and then updates; accept, reject, ring timers, the cron and
// disconnects may all land in between, so those are three steps. Closing a call and writing its summary
// message are separate transactions, so they are separate steps too.
module CallLifecycle {
  import opened Common
  import opened Calls

  datatype Message = Message(conversation: Id, call: Option<Id>)

  // An endCall in flight: what it read, and the end time and duration once it has taken the time.
  datatype Ender = Ender(call: Id, user: Id, reason: EndReason, seen: Call, endedAt: Option<Instant>, duration: int)

  datatype State = State(
    calls: CallTable,
    enders: map<Id, Ender>,
    duties: set<Id>,            // calls for which some path is going to run createCallMessage
    messages: map<Id, Message>,
    lastMessage: map<Id, Id>)

  datatype Event =
    | Ring(call: Id, caller: Id, callee: Id, conversation: Id)
    | Accept(call: Id, user: Id, at: Instant)
    | Reject(call: Id, user: Id, at: Instant)
    | Miss(call: Id, at: Instant)
    | EndRead(op: Id, call: Id, user: Id, reason: EndReason)
    | EndStamp(op: Id, at: Instant)
    | EndCommit(op: Id)
    | Reconcile(call: Id)
    | WriteSummary(call: Id, message: Id)
    | Chat(message: Id, conversation: Id)

  // Math.max(0, Math.floor(ms / 1000)).
  function WholeSeconds(start: Instant, end: Instant): (seconds: int)
    ensures 0 <= seconds
    ensures start <= end ==> 1000 * seconds <= end - start < 1000 * seconds + 1000
  {
    Max(0, (end - start) / 1000)
  }

  function DurationSeen(seen: Call, endedAt: Instant): int {
    if seen.startedAt.Some? then WholeSeconds(seen.startedAt.value, endedAt) else 0
  }

  predicate HasSummary(messages: map<Id, Message>, call: Id) {
    exists m | m in messages :: messages[m].call == Some(call)
  }

  // createCallMessage: insert and point the conversation at it, or abort on the unique index of callId.
  function InsertSummary(s: State, call: Id, message: Id): State
    requires call in s.calls
  {
    if HasSummary(s.messages, call) || message in s.messages then s
    else
      var conversation := s.calls[call].conversation;
      s.(messages := s.messages[message := Message(conversation, Some(call))],
         lastMessage := s.lastMessage[conversation := message])
  }

  function AfterUpdate(s: State, call: Id, calls: CallTable): State {
    s.(calls := calls,
       duties := if call in calls && calls[call].Closed() && (call !in s.calls || s.calls[call].Active())
                 then s.duties + {call} else s.duties)
  }

  function StepEndRead(s: State, op: Id, call: Id, user: Id, reason: EndReason): State {
    if op in s.enders || call !in s.calls || !s.calls[call].Involves(user) then s
    else if s.calls[call].status.Ended? then s.(duties := s.duties + {call})
    else s.(enders := s.enders[op := Ender(call, user, reason, s.calls[call], None, 0)])
  }

  function StepEndStamp(s: State, op: Id, at: Instant): State {
    if op !in s.enders || s.enders[op].endedAt.Some? then s
    else s.(enders := s.enders[op := s.enders[op].(endedAt := Some(at),
                                                    duration := DurationSeen(s.enders[op].seen, at))])
  }

  function StepEndCommit(s: State, op: Id): State {
    if op !in s.enders || s.enders[op].endedAt.None? then s
    else
      var e := s.enders[op];
      AfterUpdate(s.(enders := s.enders - {op}), e.call,
                  EndCall(s.calls, e.call, e.user, e.reason, e.endedAt.value, e.duration))
  }

  // markMissed also repairs the summary of a call that is already MISSED.
  function StepMiss(s: State, call: Id, at: Instant): State {
    if call in s.calls && s.calls[call].status.Missed? then s.(duties := s.duties + {call})
    else AfterUpdate(s, call, MarkMissed(s.calls, call, at))
  }

  function Step(s: State, e: Event): State {
    match e
    case Ring(call, caller, callee, conversation) =>
      if call in s.calls || caller == callee then s
      else s.(calls := s.calls[call := NewCall(caller, callee, conversation)])
    case Accept(call, user, at) => AfterUpdate(s, call, AcceptCall(s.calls, call, user, at))
    case Reject(call, user, at) => AfterUpdate(s, call, RejectCall(s.calls, call, user, at))
    case Miss(call, at) => StepMiss(s, call, at)
    case EndRead(op, call, user, reason) => StepEndRead(s, op, call, user, reason)
    case EndStamp(op, at) => StepEndStamp(s, op, at)
    case EndCommit(op) => StepEndCommit(s, op)
    case Reconcile(call) =>
      if call in s.calls && s.calls[call].Closed() && !HasSummary(s.messages, call)
      then s.(duties := s.duties + {call}) else s
    case WriteSummary(call, message) =>
      if call in s.duties && call in s.calls then InsertSummary(s, call, message) else s
    case Chat(message, conversation) =>
      if message in s.messages then s
      else s.(messages := s.messages[message := Message(conversation, None)],
              lastMessage := s.lastMessage[conversation := message])
  }

  function Run(s: State, events: seq<Event>): State
    decreases |events|
  {
    if events == [] then s else Run(Step(s, events[0]), events[1..])
  }

  const EMPTY := State(map[], map[], {}, map[], map[])

  // ----- What every reachable state looks like -----

  ghost predicate WellFormed(c: Call) {
    && (c.startedAt.Some? ==> c.status.Accepted? || c.status.Ended?)
    && (c.status.Accepted? ==> c.startedAt.Some?)
    && (c.endedAt.Some? <==> c.Closed())
    && (c.endReason.Some? <==> c.Closed())
    && (c.duration != 0 ==> c.endedAt.Some? && c.startedAt.Some?
                            && c.duration == WholeSeconds(c.startedAt.value, c.endedAt.value))
  }

  // A start time, once read, is the start time for good.
  ghost predicate SoundEnder(s: State, e: Ender) {
    && e.call in s.calls && !e.seen.status.Ended?
    && (e.seen.startedAt.Some? <==> e.seen.status.Accepted?)
    && (e.seen.startedAt.Some? ==> s.calls[e.call].startedAt == e.seen.startedAt)
    && (e.endedAt.Some? ==> e.duration == DurationSeen(e.seen, e.endedAt.value))
  }

  ghost predicate SoundMessages(s: State) {
    && (forall call | call in s.duties :: call in s.calls && s.calls[call].Closed())
    && (forall m | m in s.messages && s.messages[m].call.Some? ::
          s.messages[m].call.value in s.calls && s.calls[s.messages[m].call.value].Closed())
    && (forall m, n | m in s.messages && n in s.messages && s.messages[m].call.Some?
                      && s.messages[m].call == s.messages[n].call :: m == n)
  }

  ghost predicate Invariant(s: State) {
    && (forall call | call in s.calls :: WellFormed(s.calls[call]))
    && (forall op | op in s.enders :: SoundEnder(s, s.enders[op]))
    && SoundMessages(s)
  }

  // The only moves of one call record over any stretch of time.
  ghost predicate Evolves(before: Call, after: Call) {
    || after == before
    || (&& before.caller == after.caller && before.callee == after.callee
        && before.conversation == after.conversation
        && (|| (before.status.Calling? && !after.status.Calling?)
            || (before.status.Accepted? && after.status.Ended? && after.startedAt == before.startedAt)))
  }

  ghost predicate AllEvolve(before: CallTable, after: CallTable) {
    forall call | call in before :: call in after && Evolves(before[call], after[call])
  }

  lemma StepEvolves(s: State, e: Event)
    requires Invariant(s)
    ensures AllEvolve(s.calls, Step(s, e).calls)
  {
    match e
    case Accept(call, user, at) => AnswersEvolve(s.calls, call, user, at);
    case Reject(call, user, at) => AnswersEvolve(s.calls, call, user, at);
    case Miss(call, at) => AnswersEvolve(s.calls, call, 0, at);
    case EndCommit(op) => CommitEvolves(s, op);
    case Ring(_, _, _, _) =>
    case EndRead(_, _, _, _) => assert Step(s, e).calls == s.calls;
    case EndStamp(_, _) => assert Step(s, e).calls == s.calls;
    case Reconcile(_) => assert Step(s, e).calls == s.calls;
    case WriteSummary(_, _) => assert Step(s, e).calls == s.calls;
    case Chat(_, _) => assert Step(s, e).calls == s.calls;
  }

  lemma AnswersEvolve(calls: CallTable, call: Id, user: Id, at: Instant)
    ensures AllEvolve(calls, AcceptCall(calls, call, user, at))
    ensures AllEvolve(calls, RejectCall(calls, call, user, at))
    ensures AllEvolve(calls, MarkMissed(calls, call, at))
  {
  }

  lemma CommitEvolves(s: State, op: Id)
    ensures AllEvolve(s.calls, StepEndCommit(s, op).calls)
  {
  }

  // A step that only moves calls along and adds closed calls to the duties.
  lemma UpdateKeepsInvariant(s: State, t: State)
    requires Invariant(s) && AllEvolve(s.calls, t.calls)
    requires t.messages == s.messages && t.enders.Keys <= s.enders.Keys
    requires forall op | op in t.enders :: t.enders[op] == s.enders[op]
    requires forall call | call in t.calls :: WellFormed(t.calls[call])
    requires forall call | call in t.duties :: call in t.calls && t.calls[call].Closed()
    ensures Invariant(t)
  {
    forall op | op in t.enders
      ensures SoundEnder(t, t.enders[op])
    {
      assert SoundEnder(s, s.enders[op]);
    }
  }

  // An update that takes the calls from one sound table to another, noting the closed one.
  lemma AfterUpdateKeepsInvariant(s: State, call: Id, calls: CallTable)
    requires Invariant(s) && AllEvolve(s.calls, calls) && (forall id | id in calls :: WellFormed(calls[id]))
    ensures Invariant(AfterUpdate(s, call, calls))
  {
    UpdateKeepsInvariant(s, AfterUpdate(s, call, calls));
  }

  lemma AnswersKeepInvariant(s: State, call: Id, user: Id, at: Instant)
    requires Invariant(s)
    ensures Invariant(AfterUpdate(s, call, AcceptCall(s.calls, call, user, at)))
    ensures Invariant(AfterUpdate(s, call, RejectCall(s.calls, call, user, at)))
  {
    AnswersEvolve(s.calls, call, user, at);
    AfterUpdateKeepsInvariant(s, call, AcceptCall(s.calls, call, user, at));
    AfterUpdateKeepsInvariant(s, call, RejectCall(s.calls, call, user, at));
  }

  lemma DutyKeepsInvariant(s: State, call: Id)
    requires Invariant(s) && call in s.calls && s.calls[call].Closed()
    ensures Invariant(s.(duties := s.duties + {call}))
  {
    UpdateKeepsInvariant(s, s.(duties := s.duties + {call}));
  }

  lemma MissKeepsInvariant(s: State, call: Id, at: Instant)
    requires Invariant(s)
    ensures Invariant(StepMiss(s, call, at))
  {
    if call in s.calls && s.calls[call].status.Missed? {
      DutyKeepsInvariant(s, call);
    } else {
      UpdateKeepsInvariant(s, AfterUpdate(s, call, MarkMissed(s.calls, call, at)));
    }
  }

  lemma EnderKeepsInvariant(s: State, op: Id, ender: Ender)
    requires Invariant(s) && SoundEnder(s, ender)
    ensures Invariant(s.(enders := s.enders[op := ender]))
  {
    var t := s.(enders := s.enders[op := ender]);
    forall o | o in t.enders
      ensures SoundEnder(t, t.enders[o])
    {
      assert o != op ==> SoundEnder(s, s.enders[o]);
    }
  }

  lemma EndReadKeepsInvariant(s: State, op: Id, call: Id, user: Id, reason: EndReason)
    requires Invariant(s)
    ensures Invariant(StepEndRead(s, op, call, user, reason))
  {
    if call in s.calls && s.calls[call].status.Ended? {
      DutyKeepsInvariant(s, call);
    } else if call in s.calls {
      assert WellFormed(s.calls[call]);
      EnderKeepsInvariant(s, op, Ender(call, user, reason, s.calls[call], None, 0));
    }
  }

  lemma StampKeepsInvariant(s: State, op: Id, at: Instant)
    requires Invariant(s)
    ensures Invariant(StepEndStamp(s, op, at))
  {
    if op in s.enders && s.enders[op].endedAt.None? {
      assert SoundEnder(s, s.enders[op]);
      EnderKeepsInvariant(s, op, StepEndStamp(s, op, at).enders[op]);
    }
  }

  lemma CommitKeepsInvariant(s: State, op: Id)
    requires Invariant(s)
    ensures Invariant(StepEndCommit(s, op))
  {
    if op in s.enders && s.enders[op].endedAt.Some? {
      CommitEvolves(s, op);
      CommitIsWellFormed(s, op);
      UpdateKeepsInvariant(s, StepEndCommit(s, op));
    }
  }

  lemma CommitIsWellFormed(s: State, op: Id)
    requires Invariant(s) && op in s.enders && s.enders[op].endedAt.Some?
    ensures forall call | call in StepEndCommit(s, op).calls :: WellFormed(StepEndCommit(s, op).calls[call])
    ensures forall call | call in StepEndCommit(s, op).duties ::
      call in StepEndCommit(s, op).calls && StepEndCommit(s, op).calls[call].Closed()
  {
    var e := s.enders[op];
    assert SoundEnder(s, e) && WellFormed(s.calls[e.call]);
  }

  lemma MessageKeepsInvariant(s: State, message: Id, content: Message)
    requires Invariant(s) && message !in s.messages
    requires content.call.Some? ==>
      content.call.value in s.calls && s.calls[content.call.value].Closed()
      && !HasSummary(s.messages, content.call.value)
    ensures Invariant(s.(messages := s.messages[message := content],
                         lastMessage := s.lastMessage[content.conversation := message]))
  {
    var t := s.(messages := s.messages[message := content],
                lastMessage := s.lastMessage[content.conversation := message]);
    forall op | op in t.enders
      ensures SoundEnder(t, t.enders[op])
    {
      assert SoundEnder(s, s.enders[op]);
    }
  }

  lemma SummaryKeepsInvariant(s: State, call: Id, message: Id)
    requires Invariant(s) && call in s.duties
    ensures call in s.calls && Invariant(InsertSummary(s, call, message))
  {
    assert call in s.calls && s.calls[call].Closed();
    if !HasSummary(s.messages, call) && message !in s.messages {
      MessageKeepsInvariant(s, message, Message(s.calls[call].conversation, Some(call)));
    }
  }

  lemma RingKeepsInvariant(s: State, call: Id, caller: Id, callee: Id, conversation: Id)
    requires Invariant(s) && call !in s.calls
    ensures Invariant(s.(calls := s.calls[call := NewCall(caller, callee, conversation)]))
  {
    UpdateKeepsInvariant(s, s.(calls := s.calls[call := NewCall(caller, callee, conversation)]));
  }

  lemma StepKeepsInvariant(s: State, e: Event)
    requires Invariant(s)
    ensures Invariant(Step(s, e))
  {
    match e
    case Ring(call, caller, callee, conversation) =>
      if call !in s.calls {
        RingKeepsInvariant(s, call, caller, callee, conversation);
      }
    case Accept(call, user, at) => AnswersKeepInvariant(s, call, user, at);
    case Reject(call, user, at) => AnswersKeepInvariant(s, call, user, at);
    case Miss(call, at) => MissKeepsInvariant(s, call, at);
    case EndRead(op, call, user, reason) => EndReadKeepsInvariant(s, op, call, user, reason);
    case EndStamp(op, at) => StampKeepsInvariant(s, op, at);
    case EndCommit(op) => CommitKeepsInvariant(s, op);
    case Reconcile(call) =>
      if call in s.calls && s.calls[call].Closed() {
        DutyKeepsInvariant(s, call);
      }
    case WriteSummary(call, message) =>
      if call in s.duties {
        SummaryKeepsInvariant(s, call, message);
      }
    case Chat(message, conversation) =>
      if message !in s.messages {
        MessageKeepsInvariant(s, message, Message(conversation, None));
      }
  }

  lemma {:induction false} RunKeepsInvariant(s: State, events: seq<Event>)
    requires Invariant(s)
    ensures Invariant(Run(s, events)) && AllEvolve(s.calls, Run(s, events).calls)
    decreases |events|
  {
    if events == [] {
    } else {
      StepKeepsInvariant(s, events[0]);
      StepEvolves(s, events[0]);
      RunKeepsInvariant(Step(s, events[0]), events[1..]);
    }
  }

  // ----- The status machine -----

  // However hang-ups, answers, late timers, the cron and disconnects interleave: a closed call never
  // changes again, and a call that was accepted can only go on or be ENDED, with its start time kept.
  lemma ClosedCallsAreFinal(first: seq<Event>, later: seq<Event>, call: Id)
    requires call in Run(EMPTY, first).calls
    ensures var s := Run(EMPTY, first); var t := Run(s, later);
      && call in t.calls
      && (s.calls[call].Closed() ==> t.calls[call] == s.calls[call])
      && (s.calls[call].status.Accepted? ==>
            (t.calls[call] == s.calls[call] || t.calls[call].status.Ended?)
            && t.calls[call].startedAt == s.calls[call].startedAt)
      && t.calls[call].duration >= 0
  {
    RunKeepsInvariant(EMPTY, first);
    RunKeepsInvariant(Run(EMPTY, first), later);
  }

  // ----- The stored duration -----

  // When endCall closes a call, the duration it stores is right exactly when its read had already seen
  // the call ACCEPTED, or the call lasted less than a second.
  lemma StoredDuration(events: seq<Event>, op: Id)
    requires var s := Run(EMPTY, events);
      op in s.enders && s.enders[op].endedAt.Some? && CanEnd(s.calls, s.enders[op].call, s.enders[op].user)
    ensures var s := Run(EMPTY, events); var e := s.enders[op]; var c := Step(s, EndCommit(op)).calls[e.call];
      && c.status.Ended? && c.endedAt == e.endedAt && c.endReason == Some(e.reason)
      && c.startedAt == s.calls[e.call].startedAt
      && (c.startedAt.None? ==> c.duration == 0)
      && (c.startedAt.Some? ==>
            (c.duration == WholeSeconds(c.startedAt.value, c.endedAt.value) <==>
               e.seen.status.Accepted? || WholeSeconds(c.startedAt.value, c.endedAt.value) == 0))
  {
    RunKeepsInvariant(EMPTY, events);
    var s := Run(EMPTY, events);
    assert SoundEnder(s, s.enders[op]);
  }

  // The caller hangs up, the read sees CALLING, the callee's accept lands first, and a minute of talk
  // before the update arrives is recorded as a call of no length.
  lemma EndRaceLosesTheDuration()
    ensures var c := Run(EMPTY, [Ring(0, 1, 2, 3), EndRead(0, 0, 1, UserHangup), Accept(0, 2, 0),
                                 EndStamp(0, 60000), EndCommit(0)]).calls[0];
      c.status.Ended? && c.startedAt == Some(0) && c.endedAt == Some(60000) && c.duration == 0
  {
    var s1 := Step(EMPTY, Ring(0, 1, 2, 3));
    var s2 := Step(s1, EndRead(0, 0, 1, UserHangup));
    var s3 := Step(s2, Accept(0, 2, 0));
    var s4 := Step(s3, EndStamp(0, 60000));
    var s5 := Step(s4, EndCommit(0));
    assert Run(s4, [EndCommit(0)]) == s5;
    assert Run(s3, [EndStamp(0, 60000), EndCommit(0)]) == s5;
    assert Run(s2, [Accept(0, 2, 0), EndStamp(0, 60000), EndCommit(0)]) == s5;
    assert Run(s1, [EndRead(0, 0, 1, UserHangup), Accept(0, 2, 0), EndStamp(0, 60000), EndCommit(0)]) == s5;
  }

  // ----- The summary message -----

  ghost predicate ExactlyOneSummary(messages: map<Id, Message>, call: Id) {
    && HasSummary(messages, call)
    && (forall m, n | m in messages && n in messages
                      && messages[m].call == Some(call) && messages[n].call == Some(call) :: m == n)
  }

  lemma SummaryStays(s: State, e: Event, call: Id)
    requires HasSummary(s.messages, call)
    ensures HasSummary(Step(s, e).messages, call)
  {
    var m :| m in s.messages && s.messages[m].call == Some(call);
    assert m in Step(s, e).messages && Step(s, e).messages[m] == s.messages[m];
  }

  lemma {:induction false} RunKeepsSummary(s: State, events: seq<Event>, call: Id)
    requires HasSummary(s.messages, call)
    ensures HasSummary(Run(s, events).messages, call)
    decreases |events|
  {
    if events == [] {
    } else {
      SummaryStays(s, events[0], call);
      RunKeepsSummary(Step(s, events[0]), events[1..], call);
    }
  }

  // In any interleaving a call has at most one summary, only once it is closed; a second attempt to write
  // it changes nothing, the conversation's last message included.
  lemma OneSummaryPerClosedCall(events: seq<Event>, call: Id, message: Id)
    ensures var s := Run(EMPTY, events);
      && (HasSummary(s.messages, call) ==>
            call in s.calls && s.calls[call].Closed() && ExactlyOneSummary(s.messages, call)
            && Step(s, WriteSummary(call, message)) == s)
  {
    RunKeepsInvariant(EMPTY, events);
  }

  // A path that closed the call, or a reconcile pass that found it, only needs its insert to go through:
  // from then on, whatever else runs, the call has exactly one summary.
  lemma WrittenSummaryStaysUnique(first: seq<Event>, call: Id, message: Id, later: seq<Event>)
    requires var s := Run(EMPTY, first); call in s.duties && message !in s.messages
    ensures var t := Run(Step(Run(EMPTY, first), WriteSummary(call, message)), later);
      ExactlyOneSummary(t.messages, call)
  {
    RunKeepsInvariant(EMPTY, first);
    var s := Run(EMPTY, first);
    var t := Step(s, WriteSummary(call, message));
    StepKeepsInvariant(s, WriteSummary(call, message));
    assert HasSummary(t.messages, call) by {
      if !HasSummary(s.messages, call) {
        assert t.messages[message].call == Some(call);
      }
    }
    RunKeepsInvariant(t, later);
    RunKeepsSummary(t, later, call);
  }
}
