// startCall as the code of one request, and what one attempt achieves on the shared machine
// (src/modules/realtime/realtime-call.service.ts:97-166, 385-453).
module CallServer {
  import opened Common
  import opened Calls
  import opened CallStart

  ghost predicate SameLiveKeys(before: LockTable, after: LockTable, now: Instant) {
    forall key :: Live(after, key, now) == Live(before, key, now)
  }

  ghost function WithKeys(locks: LockTable, keys: seq<Id>, now: Instant): LockTable {
    if keys == [] then locks
    else WithKeys(locks, keys[..|keys| - 1], now)[keys[|keys| - 1] := now + LOCK_TTL_SECONDS]
  }

  ghost function WithoutKeys(locks: LockTable, keys: seq<Id>): LockTable {
    if keys == [] then locks else Del(WithoutKeys(locks, keys[..|keys| - 1]), keys[|keys| - 1])
  }

  // No key is live, and none is asked for twice.
  ghost predicate AllFree(locks: LockTable, keys: seq<Id>, now: Instant) {
    keys == []
    || (AllFree(locks, keys[..|keys| - 1], now)
        && !Live(locks, keys[|keys| - 1], now) && keys[|keys| - 1] !in keys[..|keys| - 1])
  }

  lemma WithKeysMembers(locks: LockTable, keys: seq<Id>, now: Instant)
    ensures forall key :: key in keys ==> key in WithKeys(locks, keys, now)
                                          && WithKeys(locks, keys, now)[key] == now + LOCK_TTL_SECONDS
    ensures forall key :: key !in keys ==>
      (key in WithKeys(locks, keys, now) <==> key in locks)
      && (key in locks ==> WithKeys(locks, keys, now)[key] == locks[key])
  {
    if keys == [] {
    } else {
      WithKeysMembers(locks, keys[..|keys| - 1], now);
      assert keys == keys[..|keys| - 1] + [keys[|keys| - 1]];
    }
  }

  lemma WithoutKeysMembers(locks: LockTable, keys: seq<Id>)
    ensures forall key :: key in WithoutKeys(locks, keys) <==> key in locks && key !in keys
    ensures forall key :: key in WithoutKeys(locks, keys) ==> WithoutKeys(locks, keys)[key] == locks[key]
  {
    if keys == [] {
    } else {
      WithoutKeysMembers(locks, keys[..|keys| - 1]);
      assert keys == keys[..|keys| - 1] + [keys[|keys| - 1]];
    }
  }

  lemma AllFreeMembers(locks: LockTable, keys: seq<Id>, now: Instant)
    requires AllFree(locks, keys, now)
    ensures forall key :: key in keys ==> !Live(locks, key, now)
  {
    if keys == [] {
    } else {
      AllFreeMembers(locks, keys[..|keys| - 1], now);
      assert keys == keys[..|keys| - 1] + [keys[|keys| - 1]];
    }
  }

  lemma AllFreePrefix(locks: LockTable, keys: seq<Id>, n: nat, now: Instant)
    requires n <= |keys| && !AllFree(locks, keys[..n], now)
    ensures !AllFree(locks, keys, now)
    decreases |keys|
  {
    if n < |keys| {
      assert keys[..|keys| - 1][..n] == keys[..n];
      AllFreePrefix(locks, keys[..|keys| - 1], n, now);
    } else {
      assert keys[..n] == keys;
    }
  }

  // Taking free keys and deleting them again leaves every key as live as it was.
  lemma GiveBack(locks: LockTable, keys: seq<Id>, now: Instant)
    requires AllFree(locks, keys, now)
    ensures SameLiveKeys(locks, WithoutKeys(WithKeys(locks, keys, now), keys), now)
  {
    WithKeysMembers(locks, keys, now);
    WithoutKeysMembers(WithKeys(locks, keys, now), keys);
    AllFreeMembers(locks, keys, now);
  }

  lemma AllFreePair(locks: LockTable, caller: Id, callee: Id, now: Instant)
    ensures AllFree(locks, LockKeys(caller, callee), now) <==>
      caller != callee && !Live(locks, caller, now) && !Live(locks, callee, now)
  {
    var keys := LockKeys(caller, callee);
    assert keys[..1] == [keys[0]] && keys[..1][..0] == [];
    assert AllFree(locks, [], now);
    assert AllFree(locks, keys[..1], now) <==> !Live(locks, keys[0], now);
    assert keys[1] in keys[..1] <==> caller == callee;
  }

  lemma NewCallKeepsIff(calls: CallTable, call: Id, caller: Id, callee: Id, conversation: Id)
    requires OneCallPerUser(calls) && call !in calls && caller != callee
    ensures var after := calls[call := NewCall(caller, callee, conversation)];
      OneCallPerUser(after) <==> NoActiveCall(calls, caller) && NoActiveCall(calls, callee)
  {
    var after := calls[call := NewCall(caller, callee, conversation)];
    assert after[call].Active() && after[call].Involves(caller) && after[call].Involves(callee);
    forall id | id in calls && calls[id].Active() && (calls[id].Involves(caller) || calls[id].Involves(callee))
      ensures !OneCallPerUser(after)
    {
      assert after[id] == calls[id];
    }
  }

  class Server {
    var now: Instant
    var locks: LockTable
    var calls: CallTable
    var nextCall: Id
    var callTimeoutTimers: set<Id>

    constructor (at: Instant)
      ensures Valid() && now == at && locks == map[] && calls == map[] && callTimeoutTimers == {}
    {
      now, locks, calls, nextCall, callTimeoutTimers := at, map[], map[], 0, {};
    }

    ghost predicate Valid()
      reads this
    {
      forall id | id in calls :: id < nextCall
    }

    method SetIfNotExistsWithTtl(key: Id) returns (acquired: bool)
      modifies `locks
      ensures acquired == !Live(old(locks), key, now)
      ensures locks == SetNx(old(locks), key, now)
      ensures acquired ==> forall at :: Live(locks, key, at) <==> at < now + LOCK_TTL_SECONDS
      ensures !acquired ==> locks == old(locks)
      ensures forall k, at | k != key :: Live(locks, k, at) <==> Live(old(locks), k, at)
      ensures Live(locks, key, now)
    {
      acquired := !Live(locks, key, now);
      if acquired {
        locks := locks[key := now + LOCK_TTL_SECONDS];
      }
    }

    method DeleteKeys(keys: seq<Id>)
      modifies `locks
      ensures locks == WithoutKeys(old(locks), keys)
    {
      for i := 0 to |keys|
        invariant locks == WithoutKeys(old(locks), keys[..i])
      {
        locks := Del(locks, keys[i]);
        assert keys[..i + 1][..i] == keys[..i];
      }
      assert keys[..|keys|] == keys;
    }

    // All keys or none: a refusal gives back what it had already taken.
    method LockStartCallUsers(lockKeys: seq<Id>) returns (acquired: bool)
      modifies `locks
      ensures acquired <==> AllFree(old(locks), lockKeys, now)
      ensures acquired ==> locks == WithKeys(old(locks), lockKeys, now)
      ensures !acquired ==> SameLiveKeys(old(locks), locks, now)
    {
      var acquiredKeys: seq<Id> := [];
      for i := 0 to |lockKeys|
        invariant acquiredKeys == lockKeys[..i]
        invariant AllFree(old(locks), lockKeys[..i], now)
        invariant locks == WithKeys(old(locks), lockKeys[..i], now)
      {
        assert lockKeys[..i + 1][..i] == lockKeys[..i];
        WithKeysMembers(old(locks), lockKeys[..i], now);
        var got := SetIfNotExistsWithTtl(lockKeys[i]);
        if !got {
          AllFreePrefix(old(locks), lockKeys, i + 1, now);
          DeleteKeys(acquiredKeys);
          GiveBack(old(locks), acquiredKeys, now);
          return false;
        }
        acquiredKeys := acquiredKeys + [lockKeys[i]];
      }
      assert lockKeys[..|lockKeys|] == lockKeys;
      acquired := true;
    }

    // `permitted` is the verdict of the user, relationship and conversation checks of createCall. A new call leaves
    // every user in at most one call exactly when both of its users were in none.
    method CreateCall(caller: Id, callee: Id, conversation: Id, permitted: bool) returns (call: Option<Id>)
      requires Valid()
      modifies `calls, `nextCall
      ensures Valid()
      ensures call == if caller != callee && permitted then Some(old(nextCall)) else None
      ensures calls == if call.Some? then old(calls)[call.value := NewCall(caller, callee, conversation)]
                       else old(calls)
      ensures call.Some? ==> call.value !in old(calls) && UserBusy(calls, caller) && UserBusy(calls, callee)
      ensures old(OneCallPerUser(calls)) && call.Some? ==>
        (OneCallPerUser(calls) <==> NoActiveCall(old(calls), caller) && NoActiveCall(old(calls), callee))
    {
      if OneCallPerUser(calls) && caller != callee {
        NewCallKeepsIff(calls, nextCall, caller, callee, conversation);
      }
      if caller == callee || !permitted {
        return None;
      }
      call := Some(nextCall);
      calls := calls[nextCall := NewCall(caller, callee, conversation)];
      assert calls[nextCall].Active() && calls[nextCall].Involves(caller) && calls[nextCall].Involves(callee);
      nextCall := nextCall + 1;
    }

    method StartCall(caller: Id, callee: Id, conversation: Id, permitted: bool) returns (call: Option<Id>)
      requires Valid()
      modifies this
      ensures Valid() && now == old(now)
      ensures call.Some? <==>
        && caller != callee && permitted
        && !Live(old(locks), caller, now) && !Live(old(locks), callee, now)
        && !UserBusy(old(calls), caller) && !UserBusy(old(calls), callee)
      ensures call.Some? ==>
        && call.value !in old(calls)
        && calls == old(calls)[call.value := NewCall(caller, callee, conversation)]
        && callTimeoutTimers == old(callTimeoutTimers) + {call.value}
      ensures call.None? ==> calls == old(calls) && callTimeoutTimers == old(callTimeoutTimers)
      ensures SameLiveKeys(old(locks), locks, now)
      ensures old(OneCallPerUser(calls)) ==> OneCallPerUser(calls)
    {
      var lockKeys := LockKeys(caller, callee);
      AllFreePair(locks, caller, callee, now);
      var acquired := LockStartCallUsers(lockKeys);
      if !acquired {
        return None;
      }
      GiveBack(old(locks), lockKeys, now);
      call := None;
      if !UserBusy(calls, caller) && !UserBusy(calls, callee) {
        call := CreateCall(caller, callee, conversation, permitted);
        if call.Some? {
          ScheduleCallTimeout(call.value);
        }
      }
      DeleteKeys(lockKeys);
    }

    method ScheduleCallTimeout(call: Id)
      modifies `callTimeoutTimers
      ensures callTimeoutTimers == old(callTimeoutTimers) + {call}
    {
      callTimeoutTimers := callTimeoutTimers + {call};
    }

    // The timer fires: it forgets itself and closes the call only if nobody answered. Afterwards the call does not
    // ring, no other call has changed, and nobody is in a call who was in none.
    method RingTimeout(call: Id)
      requires Valid()
      modifies `calls, `callTimeoutTimers
      ensures Valid()
      ensures calls == MarkMissed(old(calls), call, now)
      ensures callTimeoutTimers == old(callTimeoutTimers) - {call}
      ensures call in calls ==> !calls[call].status.Calling?
      ensures forall id | id in old(calls) && (id != call || !old(calls)[id].status.Calling?) ::
        id in calls && calls[id] == old(calls)[id]
      ensures forall user | NoActiveCall(old(calls), user) :: NoActiveCall(calls, user)
      ensures old(OneCallPerUser(calls)) ==> OneCallPerUser(calls)
    {
      callTimeoutTimers := callTimeoutTimers - {call};
      if call in calls && calls[call].status.Calling? {
        calls := calls[call := calls[call].(status := Missed, endedAt := Some(now), duration := 0,
                                            endReason := Some(Timeout))];
      }
    }
  }

  // ----- One attempt on the shared machine -----

  function Approach(id: Id, caller: Id, callee: Id, conversation: Id): seq<Event> {
    [Begin(id, caller, callee, conversation), TryLock(id), TryLock(id),
     ReadActive(id, caller), ReadActive(id, callee), Decide(id)]
  }

  function Finish(id: Id, caller: Id, callee: Id, call: Id): seq<Event> {
    [Create(id, true, call), Release(id, caller), Release(id, callee)]
  }

  lemma {:induction false} RunAppend(s: State, first: seq<Event>, second: seq<Event>)
    ensures Run(s, first + second) == Run(Run(s, first), second)
    decreases |first|
  {
    if first == [] {
      assert first + second == second;
    } else {
      assert (first + second)[1..] == first[1..] + second;
      RunAppend(Step(s, first[0]), first[1..], second);
    }
  }

  lemma RunOne(s: State, e: Event, rest: seq<Event>)
    ensures Run(s, [e] + rest) == Run(Step(s, e), rest)
  {
    assert ([e] + rest)[1..] == rest;
  }

  lemma RunSteps3(s: State, es: seq<Event>, s1: State, s2: State, s3: State)
    requires |es| == 3 && Step(s, es[0]) == s1 && Step(s1, es[1]) == s2 && Step(s2, es[2]) == s3
    ensures Run(s, es) == s3
  {
    assert es == [es[0]] + ([es[1]] + ([es[2]] + []));
    RunOne(s, es[0], [es[1]] + ([es[2]] + []));
    RunOne(s1, es[1], [es[2]] + []);
    RunOne(s2, es[2], []);
  }

  ghost predicate Undisturbed(s: State, id: Id, caller: Id, callee: Id) {
    && id !in s.attempts && caller != callee
    && !Live(s.locks, caller, s.now) && !Live(s.locks, callee, s.now)
    && !UserBusy(s.calls, caller) && !UserBusy(s.calls, callee)
  }

  function Locked(s: State, id: Id, caller: Id, callee: Id, conversation: Id, pc: Pc): State {
    s.(locks := s.locks[caller := s.now + LOCK_TTL_SECONDS][callee := s.now + LOCK_TTL_SECONDS],
       attempts := s.attempts[id := Attempt(caller, callee, conversation, s.now, pc)])
  }

  lemma TakesBothLocks(s: State, id: Id, caller: Id, callee: Id, conversation: Id)
    requires Undisturbed(s, id, caller, callee)
    ensures Run(s, Approach(id, caller, callee, conversation)[..3])
         == Locked(s, id, caller, callee, conversation, Checking({}, false))
  {
    var es := Approach(id, caller, callee, conversation)[..3];
    var a := Attempt(caller, callee, conversation, s.now, Locking(0));
    var lo, hi := a.Keys()[0], a.Keys()[1];
    var until := s.now + LOCK_TTL_SECONDS;
    var s1 := Put(s, id, a);
    var s2 := Put(s1.(locks := s.locks[lo := until]), id, a.(pc := Locking(1)));
    var s3 := Put(s2.(locks := s2.locks[hi := until]), id, a.(pc := Checking({}, false)));
    assert Step(s, es[0]) == s1;
    TakesFreeLock(s1, id);
    TakesFreeLock(s2, id);
    RunSteps3(s, es, s1, s2, s3);
    assert s.locks[lo := until][hi := until] == s.locks[caller := until][callee := until];
  }

  lemma TakesFreeLock(s: State, id: Id)
    requires id in s.attempts && s.attempts[id].pc.Locking? && s.attempts[id].pc.taken < 2
    requires !Live(s.locks, s.attempts[id].Keys()[s.attempts[id].pc.taken], s.now)
    ensures var a := s.attempts[id]; var key := a.Keys()[a.pc.taken];
      Step(s, TryLock(id)) == Put(s.(locks := s.locks[key := s.now + LOCK_TTL_SECONDS]), id,
                                  if a.pc.taken == 0 then a.(pc := Locking(1), since := s.now)
                                  else a.(pc := Checking({}, false)))
  {
  }

  lemma PassesTheChecks(s: State, id: Id, caller: Id, callee: Id, conversation: Id)
    requires Undisturbed(s, id, caller, callee)
    ensures Run(Locked(s, id, caller, callee, conversation, Checking({}, false)),
                Approach(id, caller, callee, conversation)[3..])
         == Locked(s, id, caller, callee, conversation, Creating)
  {
    var es := Approach(id, caller, callee, conversation)[3..];
    var c0 := Locked(s, id, caller, callee, conversation, Checking({}, false));
    var c1 := Locked(s, id, caller, callee, conversation, Checking({caller}, false));
    var c2 := Locked(s, id, caller, callee, conversation, Checking({caller, callee}, false));
    var c3 := Locked(s, id, caller, callee, conversation, Creating);
    assert StepReadActive(c0, id, caller) == c1 by {
      assert {} + {caller} == {caller};
    }
    assert StepReadActive(c1, id, callee) == c2 by {
      assert {caller} + {callee} == {caller, callee};
    }
    assert StepDecide(c2, id) == c3;
    RunSteps3(c0, es, c1, c2, c3);
  }

  lemma ApproachReachesCreating(s: State, id: Id, caller: Id, callee: Id, conversation: Id)
    requires Undisturbed(s, id, caller, callee)
    ensures Run(s, Approach(id, caller, callee, conversation))
         == Locked(s, id, caller, callee, conversation, Creating)
  {
    var es := Approach(id, caller, callee, conversation);
    assert es == es[..3] + es[3..];
    RunAppend(s, es[..3], es[3..]);
    TakesBothLocks(s, id, caller, callee, conversation);
    PassesTheChecks(s, id, caller, callee, conversation);
  }

  // An attempt nobody disturbs creates the ringing call and leaves no key behind.
  lemma {:induction false} UndisturbedAttemptRings(s: State, id: Id, caller: Id, callee: Id, conversation: Id, call: Id)
    requires Undisturbed(s, id, caller, callee) && call !in s.calls
    ensures var t := Run(s, Approach(id, caller, callee, conversation) + Finish(id, caller, callee, call));
      && t.calls == s.calls[call := NewCall(caller, callee, conversation)]
      && t.now == s.now && SameLiveKeys(s.locks, t.locks, s.now)
      && t.attempts == s.attempts[id := Attempt(caller, callee, conversation, s.now, Finished)]
  {
    ApproachReachesCreating(s, id, caller, callee, conversation);
    RunAppend(s, Approach(id, caller, callee, conversation), Finish(id, caller, callee, call));
    CreatesAndReleases(Locked(s, id, caller, callee, conversation, Creating), id, call);
  }

  lemma CreatesAndReleases(s: State, id: Id, call: Id)
    requires id in s.attempts && s.attempts[id].pc.Creating? && call !in s.calls
    requires s.attempts[id].caller != s.attempts[id].callee
    ensures var a := s.attempts[id];
      Run(s, Finish(id, a.caller, a.callee, call))
      == State(s.now, s.locks - {a.caller} - {a.callee}, s.calls[call := NewCall(a.caller, a.callee, a.conversation)],
               s.attempts[id := a.(pc := Finished)])
  {
    var a := s.attempts[id];
    var caller, callee := a.caller, a.callee;
    var c1 := Put(s.(calls := s.calls[call := NewCall(caller, callee, a.conversation)]), id,
                  a.(pc := Releasing({caller, callee})));
    var c2 := Put(c1.(locks := s.locks - {caller}), id, a.(pc := Releasing({callee})));
    var c3 := Put(c2.(locks := c2.locks - {callee}), id, a.(pc := Finished));
    assert StepCreate(s, id, true, call) == c1;
    assert StepRelease(c1, id, caller) == c2 by {
      assert {caller, callee} - {caller} == {callee} && {caller, callee} != {caller};
    }
    assert StepRelease(c2, id, callee) == c3;
    RunSteps3(s, Finish(id, caller, callee, call), c1, c2, c3);
  }

  // The first attempt sleeps through its lock life after passing its checks; a second one starts, passes
  // the same checks and rings; then the first wakes up and creates its call.
  function Oversleep(): seq<Event> {
    Approach(0, 7, 8, 0) + ([Tick(LOCK_TTL_SECONDS)]
    + ((Approach(1, 7, 9, 1) + Finish(1, 7, 9, 100)) + [Create(0, true, 101)]))
  }

  // Without attempts ending within the lock life, one user ends up in two ringing calls.
  lemma LateAttemptBreaksExclusivity(s: State)
    requires s == State(0, map[], map[], map[])
    ensures !OneCallPerUser(Run(s, Oversleep()).calls)
  {
    var second := Approach(1, 7, 9, 1) + Finish(1, 7, 9, 100);
    var rest := second + [Create(0, true, 101)];
    RunAppend(s, Approach(0, 7, 8, 0), [Tick(LOCK_TTL_SECONDS)] + rest);
    ApproachReachesCreating(s, 0, 7, 8, 0);
    SecondAttemptRings(Locked(s, 0, 7, 8, 0, Creating), rest);
  }

  lemma SecondAttemptRings(s: State, rest: seq<Event>)
    requires s == Locked(State(0, map[], map[], map[]), 0, 7, 8, 0, Creating)
    requires rest == (Approach(1, 7, 9, 1) + Finish(1, 7, 9, 100)) + [Create(0, true, 101)]
    ensures !OneCallPerUser(Run(s, [Tick(LOCK_TTL_SECONDS)] + rest).calls)
  {
    var t := s.(now := LOCK_TTL_SECONDS);
    assert Step(s, Tick(LOCK_TTL_SECONDS)) == t;
    RunOne(s, Tick(LOCK_TTL_SECONDS), rest);
    assert Undisturbed(t, 1, 7, 9);
    UndisturbedAttemptRings(t, 1, 7, 9, 1, 100);
    var second := Approach(1, 7, 9, 1) + Finish(1, 7, 9, 100);
    RunAppend(t, second, [Create(0, true, 101)]);
    WokenAttemptCreates(Run(t, second));
  }

  lemma WokenAttemptCreates(s: State)
    requires 0 in s.attempts && s.attempts[0] == Attempt(7, 8, 0, 0, Creating)
    requires s.calls == map[100 := NewCall(7, 9, 1)]
    ensures !OneCallPerUser(Run(s, [Create(0, true, 101)]).calls)
  {
    var calls := StepCreate(s, 0, true, 101).calls;
    assert [Create(0, true, 101)] == [Create(0, true, 101)] + [];
    RunOne(s, Create(0, true, 101), []);
    assert calls[100].Involves(7) && calls[101].Involves(7);
  }
}
