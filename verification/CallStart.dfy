// Starting a call (src/modules/realtime/realtime-call.service.ts:97-126, 385-453).
//
// The protocol is a machine over single store operations, so attempts interleave freely: every SET NX,
// every DEL, every query and every insert is a step of its own. The class Server of CallServer.dfy is the
// same code run by one request on its own.
module CallStart {
  import opened Common
  import opened Calls

  type LockTable = map<Id, Instant>

  const LOCK_TTL_SECONDS: int := 5

  // A key whose time has come no longer exists for Redis.
  predicate Live(locks: LockTable, key: Id, now: Instant) {
    key in locks && now < locks[key]
  }

  function SetNx(locks: LockTable, key: Id, now: Instant): LockTable {
    if Live(locks, key, now) then locks else locks[key := now + LOCK_TTL_SECONDS]
  }

  function Del(locks: LockTable, key: Id): LockTable {
    locks - {key}
  }

  // The sorted pair; the key of a user stands for `call:start:lock:${userId}`.
  function LockKeys(caller: Id, callee: Id): (keys: seq<Id>)
    ensures |keys| == 2 && keys[0] <= keys[1]
  {
    if caller <= callee then [caller, callee] else [callee, caller]
  }

  // Where an attempt stands. `taken` counts the locks it got before it was refused.
  datatype Pc =
    | Locking(taken: nat)
    | Unwinding
    | Refused(taken: nat)
    | Checking(read: set<Id>, busy: bool)
    | Creating
    | Releasing(left: set<Id>)
    | Finished

  datatype Attempt = Attempt(caller: Id, callee: Id, conversation: Id, since: Instant, pc: Pc) {
    function Keys(): (keys: seq<Id>)
      ensures |keys| == 2
    {
      LockKeys(caller, callee)
    }

    function Users(): set<Id> {
      {caller, callee}
    }

    // Keys this attempt has set and not yet deleted.
    function Held(): set<Id> {
      match pc
      case Locking(taken) => if taken == 0 then {} else {Keys()[0]}
      case Unwinding => {Keys()[0]}
      case Checking(_, _) => Users()
      case Creating => Users()
      case Releasing(left) => left
      case _ => {}
    }

    // Users this attempt has read to be in no active call, with the answer still standing.
    function KnownFree(): set<Id> {
      match pc
      case Checking(read, busy) => if busy then {} else read
      case Creating => Users()
      case _ => {}
    }
  }

  datatype State = State(now: Instant, locks: LockTable, calls: CallTable, attempts: map<Id, Attempt>)

  datatype Event =
    | Begin(attempt: Id, caller: Id, callee: Id, conversation: Id)
    | TryLock(attempt: Id)
    | Unwind(attempt: Id)
    | ReadActive(attempt: Id, user: Id)
    | Decide(attempt: Id)
    | Create(attempt: Id, permitted: bool, call: Id)
    | Abort(attempt: Id)
    | Release(attempt: Id, user: Id)
    | Tick(to: Instant)
    | Accept(call: Id, user: Id, at: Instant)
    | Reject(call: Id, user: Id, at: Instant)
    | Miss(call: Id, at: Instant)
    | End(call: Id, user: Id, reason: EndReason, at: Instant, duration: int)

  function Put(s: State, id: Id, attempt: Attempt): State {
    s.(attempts := s.attempts[id := attempt])
  }

  predicate UserBusy(calls: CallTable, user: Id) {
    exists id | id in calls :: calls[id].Active() && calls[id].Involves(user)
  }

  function StepTryLock(s: State, id: Id): State
    requires id in s.attempts
  {
    var a := s.attempts[id];
    if !a.pc.Locking? || a.pc.taken >= 2 then s
    else
      var key := a.Keys()[a.pc.taken];
      if Live(s.locks, key, s.now) then
        Put(s, id, a.(pc := if a.pc.taken == 0 then Refused(0) else Unwinding))
      else
        var next := if a.pc.taken == 0 then a.(pc := Locking(1), since := s.now)
                    else a.(pc := Checking({}, false));
        Put(s.(locks := SetNx(s.locks, key, s.now)), id, next)
  }

  function StepUnwind(s: State, id: Id): State
    requires id in s.attempts
  {
    var a := s.attempts[id];
    if !a.pc.Unwinding? then s
    else Put(s.(locks := Del(s.locks, a.Keys()[0])), id, a.(pc := Refused(1)))
  }

  function StepReadActive(s: State, id: Id, user: Id): State
    requires id in s.attempts
  {
    var a := s.attempts[id];
    if !a.pc.Checking? || user !in a.Users() then s
    else Put(s, id, a.(pc := Checking(a.pc.read + {user}, a.pc.busy || UserBusy(s.calls, user))))
  }

  // Once both users are read: busy ends the attempt, free lets it create.
  function StepDecide(s: State, id: Id): State
    requires id in s.attempts
  {
    var a := s.attempts[id];
    if !a.pc.Checking? || a.pc.read != a.Users() then s
    else Put(s, id, a.(pc := if a.pc.busy then Releasing(a.Users()) else Creating))
  }

  // createCall: refuses a self-call, then whatever the user, relationship and conversation checks say.
  function StepCreate(s: State, id: Id, permitted: bool, call: Id): State
    requires id in s.attempts
  {
    var a := s.attempts[id];
    if !a.pc.Creating? then s
    else
      var done := Put(s, id, a.(pc := Releasing(a.Users())));
      if a.caller == a.callee || !permitted || call in s.calls then done
      else done.(calls := s.calls[call := NewCall(a.caller, a.callee, a.conversation)])
  }

  // Any exception inside the try block leads to the same releases.
  function StepAbort(s: State, id: Id): State
    requires id in s.attempts
  {
    var a := s.attempts[id];
    if !a.pc.Checking? && !a.pc.Creating? then s
    else Put(s, id, a.(pc := Releasing(a.Users())))
  }

  function StepRelease(s: State, id: Id, user: Id): State
    requires id in s.attempts
  {
    var a := s.attempts[id];
    if !a.pc.Releasing? || user !in a.pc.left then s
    else
      var left := a.pc.left - {user};
      Put(s.(locks := Del(s.locks, user)), id, a.(pc := if left == {} then Finished else Releasing(left)))
  }

  // Steps of one startCall; the other events belong to the rest of the system.
  predicate OfAttempt(e: Event) {
    e.Unwind? || e.TryLock? || e.ReadActive? || e.Decide? || e.Create? || e.Abort? || e.Release?
  }

  function StepAttempt(s: State, e: Event): State
    requires OfAttempt(e)
  {
    if e.attempt !in s.attempts then s
    else if e.TryLock? then StepTryLock(s, e.attempt)
    else if e.Unwind? then StepUnwind(s, e.attempt)
    else if e.ReadActive? then StepReadActive(s, e.attempt, e.user)
    else if e.Decide? then StepDecide(s, e.attempt)
    else if e.Create? then StepCreate(s, e.attempt, e.permitted, e.call)
    else if e.Abort? then StepAbort(s, e.attempt)
    else StepRelease(s, e.attempt, e.user)
  }

  function Step(s: State, e: Event): State {
    match e
    case Begin(id, caller, callee, conversation) =>
      if id in s.attempts then s
      else Put(s, id, Attempt(caller, callee, conversation, s.now, Locking(0)))
    case Tick(to) => if s.now <= to then s.(now := to) else s
    case Accept(call, user, at) => s.(calls := AcceptCall(s.calls, call, user, at))
    case Reject(call, user, at) => s.(calls := RejectCall(s.calls, call, user, at))
    case Miss(call, at) => s.(calls := MarkMissed(s.calls, call, at))
    case End(call, user, reason, at, duration) =>
      s.(calls := EndCall(s.calls, call, user, reason, at, duration))
    case _ => StepAttempt(s, e)
  }

  function Run(s: State, events: seq<Event>): State
    decreases |events|
  {
    if events == [] then s else Run(Step(s, events[0]), events[1..])
  }

  // An attempt acts only within five seconds of its first lock; a crashed one simply stops acting.
  ghost predicate InTime(s: State, e: Event) {
    OfAttempt(e) && e.attempt in s.attempts && s.attempts[e.attempt].Held() != {} ==>
      s.now < s.attempts[e.attempt].since + LOCK_TTL_SECONDS
  }

  ghost predicate RunInTime(s: State, events: seq<Event>)
    decreases |events|
  {
    events == [] || (InTime(s, events[0]) && RunInTime(Step(s, events[0]), events[1..]))
  }

  // ----- Exclusivity -----

  ghost predicate Fresh(s: State, id: Id) {
    id in s.attempts && s.now < s.attempts[id].since + LOCK_TTL_SECONDS
  }

  ghost predicate HoldsItsLocks(s: State, id: Id)
    requires id in s.attempts
  {
    forall key | key in s.attempts[id].Held() ::
      key in s.locks && s.attempts[id].since + LOCK_TTL_SECONDS <= s.locks[key]
  }

  ghost predicate KnowsFreeUsers(s: State, id: Id)
    requires id in s.attempts
  {
    var a := s.attempts[id];
    && a.KnownFree() <= a.Held() <= a.Users()
    && a.since <= s.now
    && (forall user | user in a.KnownFree() :: NoActiveCall(s.calls, user))
  }

  ghost predicate Invariant(s: State) {
    && OneCallPerUser(s.calls)
    && (forall id | Fresh(s, id) :: HoldsItsLocks(s, id) && KnowsFreeUsers(s, id))
    && (forall i, j | Fresh(s, i) && Fresh(s, j) && i != j ::
          s.attempts[i].Held() !! s.attempts[j].Held())
  }

  // One attempt moves and no call changes: it suffices to look at that attempt and the keys it touched.
  lemma MoveKeepsInvariant(s: State, id: Id, next: Attempt, locks: LockTable)
    requires Invariant(s) && id in s.attempts
    requires var t := Put(s.(locks := locks), id, next);
      Fresh(t, id) ==> HoldsItsLocks(t, id) && KnowsFreeUsers(t, id)
    requires forall j, key | j != id && Fresh(s, j) && key in s.attempts[j].Held() ::
      key in s.locks && key in locks && locks[key] == s.locks[key]
    requires s.now < next.since + LOCK_TTL_SECONDS ==>
      forall j | j != id && Fresh(s, j) :: next.Held() !! s.attempts[j].Held()
    ensures Invariant(Put(s.(locks := locks), id, next))
  {
    var t := Put(s.(locks := locks), id, next);
    forall j | Fresh(t, j)
      ensures HoldsItsLocks(t, j) && KnowsFreeUsers(t, j)
    {
      if j != id {
        assert Fresh(s, j);
      }
    }
    forall i, j | Fresh(t, i) && Fresh(t, j) && i != j
      ensures t.attempts[i].Held() !! t.attempts[j].Held()
    {
      assert i != id ==> Fresh(s, i);
      assert j != id ==> Fresh(s, j);
    }
  }

  lemma TryLockKeepsInvariant(s: State, id: Id)
    requires Invariant(s) && InTime(s, TryLock(id))
    requires id in s.attempts && s.attempts[id].pc.Locking? && s.attempts[id].pc.taken < 2
    ensures Invariant(StepTryLock(s, id))
  {
    var a := s.attempts[id];
    var t := StepTryLock(s, id);
    var key := a.Keys()[a.pc.taken];
    assert t == Put(s.(locks := t.locks), id, t.attempts[id]);
    forall j, k | j != id && Fresh(s, j) && k in s.attempts[j].Held()
      ensures k in s.locks && k in t.locks && t.locks[k] == s.locks[k]
    {
      assert HoldsItsLocks(s, j);
    }
    if !Live(s.locks, key, s.now) {
      forall j | j != id && Fresh(s, j)
        ensures key !in s.attempts[j].Held()
      {
        assert HoldsItsLocks(s, j);
      }
    }
    assert Fresh(t, id) ==> HoldsItsLocks(t, id) && KnowsFreeUsers(t, id) by {
      if a.pc.taken == 1 || Live(s.locks, key, s.now) {
        assert Fresh(t, id) ==> Fresh(s, id);
        assert Fresh(s, id) ==> HoldsItsLocks(s, id) && KnowsFreeUsers(s, id);
      }
    }
    MoveKeepsInvariant(s, id, t.attempts[id], t.locks);
  }

  // A new call of two free users whose locks are still held.
  lemma InsertKeepsInvariant(s: State, id: Id, call: Id)
    requires Invariant(s) && Fresh(s, id) && call !in s.calls
    requires var a := s.attempts[id];
      && a.caller != a.callee && a.pc == Releasing(a.Users())
      && NoActiveCall(s.calls, a.caller) && NoActiveCall(s.calls, a.callee)
    ensures var a := s.attempts[id];
      Invariant(s.(calls := s.calls[call := NewCall(a.caller, a.callee, a.conversation)]))
  {
    var a := s.attempts[id];
    var t := s.(calls := s.calls[call := NewCall(a.caller, a.callee, a.conversation)]);
    forall j | Fresh(t, j)
      ensures HoldsItsLocks(t, j) && KnowsFreeUsers(t, j)
    {
      assert Fresh(s, j) && HoldsItsLocks(s, j) && KnowsFreeUsers(s, j);
      assert j != id ==> a.Held() !! s.attempts[j].Held();
    }
    forall i, j | Fresh(t, i) && Fresh(t, j) && i != j
      ensures t.attempts[i].Held() !! t.attempts[j].Held()
    {
      assert Fresh(s, i) && Fresh(s, j);
    }
  }

  // A call is created only while the attempt still holds both locks and has read both users as free.
  lemma CreateKeepsInvariant(s: State, id: Id, permitted: bool, call: Id)
    requires Invariant(s) && InTime(s, Create(id, permitted, call))
    requires id in s.attempts && s.attempts[id].pc.Creating?
    ensures Invariant(StepCreate(s, id, permitted, call))
  {
    var a := s.attempts[id];
    var t := StepCreate(s, id, permitted, call);
    assert Fresh(s, id) && HoldsItsLocks(s, id) && KnowsFreeUsers(s, id);
    var u := Put(s, id, a.(pc := Releasing(a.Users())));
    assert u == Put(s.(locks := s.locks), id, u.attempts[id]);
    MoveKeepsInvariant(s, id, u.attempts[id], s.locks);
    if t.calls != s.calls {
      InsertKeepsInvariant(u, id, call);
    }
  }

  lemma WeakerCallsKeepInvariant(s: State, calls: CallTable)
    requires Invariant(s) && Weakens(s.calls, calls)
    ensures Invariant(s.(calls := calls))
  {
    var t := s.(calls := calls);
    forall i, j, user | i in calls && j in calls && calls[i].Active() && calls[j].Active()
                        && calls[i].Involves(user) && calls[j].Involves(user)
      ensures i == j
    {
      assert s.calls[i].Active() && s.calls[i].Involves(user);
      assert s.calls[j].Active() && s.calls[j].Involves(user);
    }
    forall id | Fresh(t, id)
      ensures HoldsItsLocks(t, id) && KnowsFreeUsers(t, id)
    {
      assert Fresh(s, id);
    }
    forall i, j | Fresh(t, i) && Fresh(t, j) && i != j
      ensures t.attempts[i].Held() !! t.attempts[j].Held()
    {
      assert Fresh(s, i) && Fresh(s, j);
    }
  }

  lemma TickKeepsInvariant(s: State, to: Instant)
    requires Invariant(s) && s.now <= to
    ensures Invariant(s.(now := to))
  {
    var t := s.(now := to);
    forall id | Fresh(t, id)
      ensures HoldsItsLocks(t, id) && KnowsFreeUsers(t, id)
    {
      assert Fresh(s, id);
    }
    forall i, j | Fresh(t, i) && Fresh(t, j) && i != j
      ensures t.attempts[i].Held() !! t.attempts[j].Held()
    {
      assert Fresh(s, i) && Fresh(s, j);
    }
  }

  // Every other step keeps or gives up locks, and learns at most that a user is free.
  lemma ShrinkKeepsInvariant(s: State, id: Id, next: Attempt, locks: LockTable)
    requires Invariant(s) && Fresh(s, id)
    requires next.since == s.attempts[id].since && next.Users() == s.attempts[id].Users()
    requires next.KnownFree() <= next.Held() <= s.attempts[id].Held()
    requires forall user | user in next.KnownFree() :: NoActiveCall(s.calls, user)
    requires locks.Keys <= s.locks.Keys && s.locks.Keys - locks.Keys <= s.attempts[id].Held() - next.Held()
    requires forall key | key in locks :: locks[key] == s.locks[key]
    ensures Invariant(Put(s.(locks := locks), id, next))
  {
    var t := Put(s.(locks := locks), id, next);
    assert HoldsItsLocks(s, id) && KnowsFreeUsers(s, id);
    forall key | key in next.Held()
      ensures key in locks && next.since + LOCK_TTL_SECONDS <= locks[key]
    {
      assert key in s.attempts[id].Held();
      assert key in s.locks;
    }
    forall j, k | j != id && Fresh(s, j) && k in s.attempts[j].Held()
      ensures k in s.locks && k in locks && locks[k] == s.locks[k]
    {
      assert HoldsItsLocks(s, j);
      assert s.attempts[id].Held() !! s.attempts[j].Held();
      assert k !in s.locks.Keys - locks.Keys;
    }
    MoveKeepsInvariant(s, id, next, locks);
  }

  lemma AttemptKeepsInvariant(s: State, e: Event)
    requires Invariant(s) && InTime(s, e)
    requires OfAttempt(e)
    ensures Invariant(StepAttempt(s, e))
  {
    var id := e.attempt;
    var t := StepAttempt(s, e);
    if t != s {
      var a := s.attempts[id];
      if e.TryLock? {
        TryLockKeepsInvariant(s, id);
      } else if e.Create? {
        CreateKeepsInvariant(s, id, e.permitted, e.call);
      } else {
        assert a.Held() != {} by {
          if e.Release? {
            assert e.user in a.Held();
          }
        }
        assert Fresh(s, id) && HoldsItsLocks(s, id) && KnowsFreeUsers(s, id);
        assert t == Put(s.(locks := t.locks), id, t.attempts[id]);
        ShrinkKeepsInvariant(s, id, t.attempts[id], t.locks);
      }
    }
  }

  lemma StepKeepsInvariant(s: State, e: Event)
    requires Invariant(s) && InTime(s, e)
    ensures Invariant(Step(s, e))
  {
    match e
    case Begin(id, caller, callee, conversation) =>
      if id !in s.attempts {
        var t := Step(s, e);
        forall i | Fresh(t, i)
          ensures HoldsItsLocks(t, i) && KnowsFreeUsers(t, i)
        {
          assert i != id ==> Fresh(s, i);
        }
        forall i, j | Fresh(t, i) && Fresh(t, j) && i != j
          ensures t.attempts[i].Held() !! t.attempts[j].Held()
        {
          assert i != id ==> Fresh(s, i);
          assert j != id ==> Fresh(s, j);
        }
      }
    case Tick(to) =>
      if s.now <= to {
        TickKeepsInvariant(s, to);
      }
    case Accept(call, user, at) =>
      UpdatesOnlyWeaken(s.calls, call, user, Timeout, at, 0);
      WeakerCallsKeepInvariant(s, Step(s, e).calls);
    case Reject(call, user, at) =>
      UpdatesOnlyWeaken(s.calls, call, user, Timeout, at, 0);
      WeakerCallsKeepInvariant(s, Step(s, e).calls);
    case Miss(call, at) =>
      UpdatesOnlyWeaken(s.calls, call, 0, Timeout, at, 0);
      WeakerCallsKeepInvariant(s, Step(s, e).calls);
    case End(call, user, reason, at, duration) =>
      UpdatesOnlyWeaken(s.calls, call, user, reason, at, duration);
      WeakerCallsKeepInvariant(s, Step(s, e).calls);
    case _ => AttemptKeepsInvariant(s, e);
  }

  lemma {:induction false} RunKeepsInvariant(s: State, events: seq<Event>)
    requires Invariant(s) && RunInTime(s, events)
    ensures Invariant(Run(s, events))
    decreases |events|
  {
    if events == [] {
    } else {
      StepKeepsInvariant(s, events[0]);
      RunKeepsInvariant(Step(s, events[0]), events[1..]);
    }
  }

  // Whatever the interleaving of attempts, answers, hang-ups, timers and passing time, a user is never
  // in two calls at once and never in a call with himself.
  lemma NoUserInTwoCalls(s: State, events: seq<Event>)
    requires s.attempts == map[] && OneCallPerUser(s.calls) && RunInTime(s, events)
    ensures OneCallPerUser(Run(s, events).calls)
  {
    RunKeepsInvariant(s, events);
  }
}
