// The call service as the code of one request at a time (src/modules/calls/call.service.ts:166-401).
module CallServices {
  import opened Common
  import opened Calls
  import opened CallLifecycle

  datatype CallError = CallNotFound | CallForbidden | AlreadyEnded

  datatype CallResult = Ok(call: Call) | Err(error: CallError)

  const TWO_DAYS_MS: int := 2 * 24 * 60 * 60 * 1000

  // The filter of createMissingCallMessages.
  predicate RecentlyClosed(call: Call, now: Instant) {
    call.Closed() && call.endedAt.Some? && now - TWO_DAYS_MS <= call.endedAt.value <= now
  }

  class CallService {
    var now: Instant
    var calls: CallTable
    var messages: map<Id, Message>
    var lastMessage: map<Id, Id>
    var nextMessage: Id

    ghost predicate Valid()
      reads this
    {
      Invariant(Snapshot()) && forall m | m in messages :: m < nextMessage
    }

    ghost function Snapshot(): State
      reads this
    {
      State(calls, map[], {}, messages, lastMessage)
    }

    // The outcome of a refused answer: unknown call, not the callee, or no longer ringing.
    function AnswerError(id: Id, user: Id): CallError
      reads this
    {
      if id !in calls then CallNotFound
      else if calls[id].callee != user then CallForbidden
      else AlreadyEnded
    }

    method AcceptCall(id: Id, user: Id) returns (r: CallResult)
      requires Valid()
      modifies `calls
      ensures Valid()
      ensures calls == Calls.AcceptCall(old(calls), id, user, now)
      ensures r.Ok? <==> id in old(calls) && old(calls)[id].status == Calling && old(calls)[id].callee == user
      ensures r.Ok? ==> id in calls && r.call == calls[id]
                        && r.call.status == Accepted && r.call.startedAt == Some(now) && r.call.endedAt == None
      ensures r.Err? ==> calls == old(calls) && r.error == old(AnswerError(id, user))
      ensures r == Err(CallNotFound) <==> id !in old(calls)
      ensures r == Err(CallForbidden) <==> id in old(calls) && old(calls)[id].callee != user
    {
      AnswersKeepInvariant(Snapshot(), id, user, now);
      if id in calls && calls[id].status.Calling? && calls[id].callee == user {
        calls := calls[id := calls[id].(status := Accepted, startedAt := Some(now))];
        DropDuties(AfterUpdate(old(Snapshot()), id, calls));
        return Ok(calls[id]);
      }
      return Err(AnswerError(id, user));
    }

    method RejectCall(id: Id, user: Id) returns (r: CallResult)
      requires Valid()
      modifies `calls, `messages, `lastMessage, `nextMessage
      ensures Valid()
      ensures calls == Calls.RejectCall(old(calls), id, user, now)
      ensures r.Ok? <==> id in old(calls) && old(calls)[id].status == Calling && old(calls)[id].callee == user
      ensures r.Ok? ==> id in calls && r.call == calls[id]
                        && r.call.status == Rejected && r.call.endReason == Some(CalleeReject)
                        && r.call.endedAt == Some(now) && r.call.duration == 0
      ensures r.Ok? ==> ExactlyOneSummary(messages, id)
      ensures r.Err? ==> calls == old(calls) && r.error == old(AnswerError(id, user))
      ensures r == Err(CallNotFound) <==> id !in old(calls)
      ensures r == Err(CallForbidden) <==> id in old(calls) && old(calls)[id].callee != user
      ensures r.Err? ==> messages == old(messages) && lastMessage == old(lastMessage)
    {
      AnswersKeepInvariant(Snapshot(), id, user, now);
      if id in calls && calls[id].status.Calling? && calls[id].callee == user {
        calls := calls[id := calls[id].(status := Rejected, endedAt := Some(now), duration := 0,
                                        endReason := Some(CalleeReject))];
        DropDuties(AfterUpdate(old(Snapshot()), id, calls));
        CreateCallMessage(id);
        return Ok(calls[id]);
      }
      return Err(AnswerError(id, user));
    }

    method EndCall(id: Id, user: Id, reason: EndReason) returns (r: CallResult)
      requires Valid()
      modifies `calls, `messages, `lastMessage, `nextMessage
      ensures Valid()
      ensures r.Ok? <==> CanEnd(old(calls), id, user)
                         || (id in old(calls) && old(calls)[id].Involves(user) && old(calls)[id].status.Ended?)
      ensures r.Ok? ==> id in calls && r.call == calls[id] && calls[id].status.Ended?
                        && ExactlyOneSummary(messages, id)
      ensures calls == if CanEnd(old(calls), id, user)
                       then Calls.EndCall(old(calls), id, user, reason, now, DurationSeen(old(calls)[id], now))
                       else old(calls)
      ensures CanEnd(old(calls), id, user) ==>
        && r.Ok? && r.call.endedAt == Some(now) && r.call.endReason == Some(reason)
        && r.call.startedAt == old(calls)[id].startedAt
        && (r.call.startedAt.Some? ==> r.call.duration == WholeSeconds(r.call.startedAt.value, now))
        && (r.call.startedAt.None? ==> r.call.duration == 0)
      ensures r.Err? ==> messages == old(messages) && lastMessage == old(lastMessage)
      ensures r.Err? ==> r.error == if id !in old(calls) then CallNotFound
                                    else if !old(calls)[id].Involves(user) then CallForbidden else AlreadyEnded
    {
      if id !in calls {
        return Err(CallNotFound);
      }
      var existing := calls[id];
      if existing.caller != user && existing.callee != user {
        return Err(CallForbidden);
      }
      if existing.status.Ended? {
        CreateCallMessage(id);
        return Ok(existing);
      }
      var endedAt := now;
      var duration := if existing.startedAt.Some?
                      then Max(0, (endedAt - existing.startedAt.value) / 1000) else 0;
      if !calls[id].Active() {
        return Err(AlreadyEnded);
      }
      calls := calls[id := existing.(status := Ended, endedAt := Some(endedAt), duration := duration,
                                     endReason := Some(reason))];
      assert WellFormed(existing);
      UpdateKeepsInvariant(old(Snapshot()), Snapshot());
      CreateCallMessage(id);
      return Ok(calls[id]);
    }

    method MarkMissed(id: Id) returns (r: Option<Call>)
      requires Valid()
      modifies `calls, `messages, `lastMessage, `nextMessage
      ensures Valid()
      ensures calls == Calls.MarkMissed(old(calls), id, now)
      ensures r == if id in calls then Some(calls[id]) else None
      ensures id in old(calls) && old(calls)[id].status == Calling ==>
        && id in calls && calls[id].status == Missed
        && calls[id].endReason == Some(Timeout) && calls[id].endedAt == Some(now)
      ensures id !in old(calls) || old(calls)[id].status != Calling ==> calls == old(calls)
      ensures id in calls && calls[id].status.Missed? ==> ExactlyOneSummary(messages, id)
      ensures id !in calls || !calls[id].status.Missed? ==> messages == old(messages)
    {
      if id in calls && calls[id].status.Calling? {
        calls := calls[id := calls[id].(status := Missed, endedAt := Some(now), duration := 0,
                                        endReason := Some(Timeout))];
        UpdateKeepsInvariant(old(Snapshot()), Snapshot());
        CreateCallMessage(id);
        return Some(calls[id]);
      }
      if id !in calls {
        return None;
      }
      if calls[id].status.Missed? {
        CreateCallMessage(id);
      }
      return Some(calls[id]);
    }

    method CreateCallMessage(id: Id)
      requires Valid() && id in calls && calls[id].Closed()
      modifies `messages, `lastMessage, `nextMessage
      ensures Valid()
      ensures Snapshot() == InsertSummary(old(Snapshot()), id, old(nextMessage))
      ensures ExactlyOneSummary(messages, id)
      ensures HasSummary(old(messages), id) ==> messages == old(messages) && lastMessage == old(lastMessage)
      ensures !HasSummary(old(messages), id) ==>
        && messages == old(messages)[old(nextMessage) := Message(calls[id].conversation, Some(id))]
        && old(nextMessage) !in old(messages)
    {
      ghost var before := Snapshot();
      if !HasSummary(messages, id) {
        MessageKeepsInvariant(before, nextMessage, Message(calls[id].conversation, Some(id)));
        messages := messages[nextMessage := Message(calls[id].conversation, Some(id))];
        lastMessage := lastMessage[calls[id].conversation := nextMessage];
        assert messages[nextMessage].call == Some(id);
        nextMessage := nextMessage + 1;
      }
    }

    // One entry of a batch: look for the summary, write it if there is none.
    method ReconcileCall(id: Id)
      requires Valid() && id in calls && calls[id].Closed()
      modifies `messages, `lastMessage, `nextMessage
      ensures Valid() && Extends(old(messages), {id}) && HasSummary(messages, id)
    {
      if !HasSummary(messages, id) {
        CreateCallMessage(id);
      }
    }

    // The reconcile pass over the calls the query found, oldest end first, ten at a time.
    method CreateMissingCallMessages(found: seq<Id>)
      requires Valid()
      requires forall id :: id in found <==> id in calls && RecentlyClosed(calls[id], now)
      requires forall i, j | 0 <= i < j < |found| :: EndTime(calls[found[i]]) <= EndTime(calls[found[j]])
      modifies `messages, `lastMessage, `nextMessage
      ensures Valid()
      ensures forall id | id in calls && calls[id].status != Calling && calls[id].status != Accepted
                          && calls[id].endedAt.Some? && now - 172_800_000 <= calls[id].endedAt.value <= now ::
                ExactlyOneSummary(messages, id)
      ensures Extends(old(messages), set id | id in found)
    {
      ghost var wanted := set id | id in found;
      var i := 0;
      while i < |found|
        invariant 0 <= i && Valid() && Extends(old(messages), wanted)
        invariant forall j | 0 <= j < i && j < |found| :: HasSummary(messages, found[j])
        decreases |found| - i
      {
        var batch := found[i..if i + 10 < |found| then i + 10 else |found|];
        for k := 0 to |batch|
          invariant Valid() && Extends(old(messages), wanted)
          invariant forall j | 0 <= j < i + k :: HasSummary(messages, found[j])
        {
          assert batch[k] == found[i + k];
          ghost var before := messages;
          ReconcileCall(batch[k]);
          ExtensionsCompose(old(messages), before, messages, wanted, batch[k]);
          SummariesPersist(before, messages);
        }
        i := i + 10;
      }
    }

    // Nothing written before is lost, and what is new is the missing summary of one of these calls.
    ghost predicate Extends(before: map<Id, Message>, wanted: set<Id>)
      reads `messages
    {
      Extension(before, messages, wanted)
    }
  }

  ghost predicate Extension(before: map<Id, Message>, after: map<Id, Message>, wanted: set<Id>) {
    && (forall m | m in before :: m in after && after[m] == before[m])
    && (forall m | m in after && m !in before ::
          after[m].call.Some? && after[m].call.value in wanted && !HasSummary(before, after[m].call.value))
  }

  function EndTime(call: Call): Instant {
    if call.endedAt.Some? then call.endedAt.value else 0
  }

  lemma ExtensionsCompose(first: map<Id, Message>, second: map<Id, Message>, third: map<Id, Message>,
                          wanted: set<Id>, call: Id)
    requires Extension(first, second, wanted) && Extension(second, third, {call}) && call in wanted
    ensures Extension(first, third, wanted)
  {
    SummariesPersist(first, second);
  }

  lemma SummariesPersist(before: map<Id, Message>, after: map<Id, Message>)
    requires forall m | m in before :: m in after && after[m] == before[m]
    ensures forall call | HasSummary(before, call) :: HasSummary(after, call)
  {
    forall call: Id | HasSummary(before, call)
      ensures HasSummary(after, call)
    {
      var m :| m in before && before[m].call == Some(call);
      assert m in after && after[m].call == Some(call);
    }
  }

  lemma DropDuties(s: State)
    requires Invariant(s)
    ensures Invariant(s.(duties := {}))
  {
    UpdateKeepsInvariant(s, s.(duties := {}));
  }
}
