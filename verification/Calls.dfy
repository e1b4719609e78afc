// The call record and its conditional updates (src/modules/calls/call.service.ts).
// Each update is one findOneAndUpdate: a filter on the stored record, then a change of its fields.
module Calls {
  import opened Common

  datatype CallStatus = Calling | Accepted | Rejected | Ended | Missed

  datatype EndReason = UserHangup | CalleeReject | Timeout | NetworkLost | CallError

  datatype Call = Call(
    caller: Id,
    callee: Id,
    conversation: Id,
    status: CallStatus,
    startedAt: Option<Instant>,
    endedAt: Option<Instant>,
    duration: int,
    endReason: Option<EndReason>)
  {
    predicate Involves(user: Id) {
      caller == user || callee == user
    }

    // The status filter of findActiveCallByUserId.
    predicate Active() {
      status.Calling? || status.Accepted?
    }

    predicate Closed() {
      !Active()
    }
  }

  type CallTable = map<Id, Call>

  function NewCall(caller: Id, callee: Id, conversation: Id): Call {
    Call(caller, callee, conversation, Calling, None, None, 0, None)
  }

  predicate CanAnswer(calls: CallTable, id: Id, user: Id) {
    id in calls && calls[id].status.Calling? && calls[id].callee == user
  }

  function AcceptCall(calls: CallTable, id: Id, user: Id, at: Instant): CallTable {
    if CanAnswer(calls, id, user) then
      calls[id := calls[id].(status := Accepted, startedAt := Some(at))]
    else calls
  }

  function RejectCall(calls: CallTable, id: Id, user: Id, at: Instant): CallTable {
    if CanAnswer(calls, id, user) then
      calls[id := calls[id].(status := Rejected, endedAt := Some(at), duration := 0,
                             endReason := Some(CalleeReject))]
    else calls
  }

  predicate CanMiss(calls: CallTable, id: Id) {
    id in calls && calls[id].status.Calling?
  }

  function MarkMissed(calls: CallTable, id: Id, at: Instant): CallTable {
    if CanMiss(calls, id) then
      calls[id := calls[id].(status := Missed, endedAt := Some(at), duration := 0,
                             endReason := Some(Timeout))]
    else calls
  }

  predicate CanEnd(calls: CallTable, id: Id, user: Id) {
    id in calls && calls[id].Active() && calls[id].Involves(user)
  }

  // The update at the end of endCall; the end time and the duration come from its earlier read.
  function EndCall(calls: CallTable, id: Id, user: Id, reason: EndReason, at: Instant, duration: int): CallTable {
    if CanEnd(calls, id, user) then
      calls[id := calls[id].(status := Ended, endedAt := Some(at), duration := duration,
                             endReason := Some(reason))]
    else calls
  }

  ghost predicate NoActiveCall(calls: CallTable, user: Id) {
    forall id | id in calls :: calls[id].Active() ==> !calls[id].Involves(user)
  }

  // Each user is in at most one call that is CALLING or ACCEPTED, and nobody calls himself.
  ghost predicate OneCallPerUser(calls: CallTable) {
    && (forall id | id in calls :: calls[id].caller != calls[id].callee)
    && (forall i, j, user |
          i in calls && j in calls && calls[i].Active() && calls[j].Active()
          && calls[i].Involves(user) && calls[j].Involves(user) :: i == j)
  }

  // No update of an existing call makes a call active or changes who is in it.
  ghost predicate Weakens(before: CallTable, after: CallTable) {
    && after.Keys == before.Keys
    && (forall id | id in before ::
          && after[id].caller == before[id].caller && after[id].callee == before[id].callee
          && (after[id].Active() ==> before[id].Active()))
  }

  lemma AnswersOnlyWeaken(calls: CallTable, id: Id, user: Id, at: Instant)
    ensures Weakens(calls, AcceptCall(calls, id, user, at))
    ensures Weakens(calls, RejectCall(calls, id, user, at))
  {
    if CanAnswer(calls, id, user) {
      OneCallWeakens(calls, id, AcceptCall(calls, id, user, at)[id]);
      OneCallWeakens(calls, id, RejectCall(calls, id, user, at)[id]);
    }
  }

  lemma UpdatesOnlyWeaken(calls: CallTable, id: Id, user: Id, reason: EndReason, at: Instant, duration: int)
    ensures Weakens(calls, AcceptCall(calls, id, user, at))
    ensures Weakens(calls, RejectCall(calls, id, user, at))
    ensures Weakens(calls, MarkMissed(calls, id, at))
    ensures Weakens(calls, EndCall(calls, id, user, reason, at, duration))
  {
    AnswersOnlyWeaken(calls, id, user, at);
    if CanMiss(calls, id) {
      OneCallWeakens(calls, id, MarkMissed(calls, id, at)[id]);
    }
    if CanEnd(calls, id, user) {
      OneCallWeakens(calls, id, EndCall(calls, id, user, reason, at, duration)[id]);
    }
  }

  lemma OneCallWeakens(calls: CallTable, id: Id, after: Call)
    requires id in calls && after.caller == calls[id].caller && after.callee == calls[id].callee
    requires after.Active() ==> calls[id].Active()
    ensures Weakens(calls, calls[id := after])
  {
  }
}
