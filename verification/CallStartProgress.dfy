// Sorted lock order gives progress: simultaneous attempts cannot all refuse each other
// (src/modules/realtime/realtime-call.service.ts:97-126). Nothing here depends on lock life times.
module CallStartProgress {
  import opened Common
  import opened Calls
  import opened CallStart

  // How many locks the attempt has ever got.
  function Depth(a: Attempt): nat {
    match a.pc
    case Locking(taken) => taken
    case Unwinding => 1
    case Refused(taken) => taken
    case _ => 2
  }

  predicate GotBoth(a: Attempt) {
    Depth(a) >= 2
  }

  ghost predicate Took(a: Attempt, key: Id) {
    || (Depth(a) >= 1 && a.Keys()[0] == key)
    || (Depth(a) >= 2 && a.Keys()[1] == key)
  }

  predicate Failed(a: Attempt) {
    a.pc.Unwinding? || (a.pc.Refused? && a.pc.taken < 2)
  }

  // The key whose SET NX failed.
  function FailKey(a: Attempt): Id
    requires Failed(a)
  {
    a.Keys()[Depth(a)]
  }

  // Every attempt is over, whichever way.
  ghost predicate Complete(s: State) {
    forall id | id in s.attempts :: s.attempts[id].pc.Refused? || s.attempts[id].pc.Finished?
  }

  ghost predicate BetweenDistinctUsers(s: State) {
    forall id | id in s.attempts :: s.attempts[id].caller != s.attempts[id].callee
  }

  ghost predicate TakenBySomeone(s: State, key: Id) {
    exists id | id in s.attempts :: Took(s.attempts[id], key)
  }

  // An attempt that holds both locks is never refused.
  predicate RefusedEarly(a: Attempt) {
    a.pc.Refused? ==> a.pc.taken < 2
  }

  // Live keys were set by attempts, and whoever was refused was refused by a key somebody had taken.
  ghost predicate BlameInvariant(s: State) {
    && (forall id | id in s.attempts :: Depth(s.attempts[id]) <= 2 && RefusedEarly(s.attempts[id]))
    && (forall key | Live(s.locks, key, s.now) :: TakenBySomeone(s, key))
    && (forall id | id in s.attempts && Failed(s.attempts[id]) ::
          TakenBySomeone(s, FailKey(s.attempts[id])))
  }

  // Attempts never lose the locks they once got from their record.
  ghost predicate Grows(s: State, t: State) {
    && s.attempts.Keys <= t.attempts.Keys
    && (forall id | id in s.attempts ::
          t.attempts[id].Keys() == s.attempts[id].Keys()
          && Depth(s.attempts[id]) <= Depth(t.attempts[id]))
  }

  lemma TakenStays(s: State, t: State, key: Id)
    requires Grows(s, t) && TakenBySomeone(s, key)
    ensures TakenBySomeone(t, key)
  {
    var id :| id in s.attempts && Took(s.attempts[id], key);
    assert Took(t.attempts[id], key);
  }

  // What a step of an attempt does to the record: that attempt advances, and a key that is live
  // afterwards was live before or has just been taken by it.
  lemma AttemptAdvances(s: State, e: Event)
    requires OfAttempt(e)
    requires e.attempt in s.attempts && Depth(s.attempts[e.attempt]) <= 2
    ensures var t := StepAttempt(s, e); var before, after := s.attempts[e.attempt], t.attempts[e.attempt];
      && t.now == s.now && t.attempts == s.attempts[e.attempt := after]
      && after.caller == before.caller && after.callee == before.callee
      && Depth(before) <= Depth(after) <= 2 && (RefusedEarly(before) ==> RefusedEarly(after))
      && (Failed(after) ==> Failed(before) || Live(s.locks, FailKey(after), s.now))
      && (Failed(before) ==> Failed(after) && FailKey(after) == FailKey(before))
      && (forall key | Live(t.locks, key, t.now) :: Live(s.locks, key, s.now) || Took(after, key))
  {
    var a := s.attempts[e.attempt];
    var t := StepAttempt(s, e);
    if e.TryLock? && a.pc.Locking? && a.pc.taken < 2 {
      var key := a.Keys()[a.pc.taken];
      assert t == StepTryLock(s, e.attempt);
      if Live(s.locks, key, s.now) {
        assert FailKey(t.attempts[e.attempt]) == key;
      } else {
        assert Took(t.attempts[e.attempt], key);
      }
    } else {
      assert t.locks.Keys <= s.locks.Keys;
      assert t.attempts == s.attempts[e.attempt := t.attempts[e.attempt]];
    }
  }

  lemma AttemptKeepsBlame(s: State, e: Event)
    requires BlameInvariant(s) && OfAttempt(e)
    ensures BlameInvariant(StepAttempt(s, e))
  {
    var t := StepAttempt(s, e);
    if e.attempt in s.attempts {
      AttemptAdvances(s, e);
      assert Grows(s, t);
      forall key | Live(t.locks, key, t.now)
        ensures TakenBySomeone(t, key)
      {
        if Live(s.locks, key, s.now) {
          TakenStays(s, t, key);
        } else {
          assert Took(t.attempts[e.attempt], key);
        }
      }
      forall id | id in t.attempts && Failed(t.attempts[id])
        ensures TakenBySomeone(t, FailKey(t.attempts[id]))
      {
        TakenStays(s, t, FailKey(t.attempts[id]));
      }
    }
  }

  lemma OthersLeaveLocksAlone(s: State, e: Event)
    requires !OfAttempt(e)
    ensures var t := Step(s, e);
      && t.locks == s.locks && s.now <= t.now && Grows(s, t)
      && (forall id | id in t.attempts && id !in s.attempts :: t.attempts[id].pc == Locking(0))
      && (forall id | id in s.attempts :: t.attempts[id] == s.attempts[id])
  {
  }

  lemma OthersKeepBlame(s: State, e: Event)
    requires BlameInvariant(s) && !OfAttempt(e)
    ensures BlameInvariant(Step(s, e))
  {
    var t := Step(s, e);
    OthersLeaveLocksAlone(s, e);
    forall key | Live(t.locks, key, t.now)
      ensures TakenBySomeone(t, key)
    {
      TakenStays(s, t, key);
    }
    forall id | id in t.attempts && Failed(t.attempts[id])
      ensures TakenBySomeone(t, FailKey(t.attempts[id]))
    {
      TakenStays(s, t, FailKey(t.attempts[id]));
    }
  }

  lemma {:induction false} RunKeepsBlame(s: State, events: seq<Event>)
    requires BlameInvariant(s)
    ensures BlameInvariant(Run(s, events))
    decreases |events|
  {
    if events == [] {
    } else {
      if OfAttempt(events[0]) {
        AttemptKeepsBlame(s, events[0]);
      } else {
        OthersKeepBlame(s, events[0]);
      }
      RunKeepsBlame(Step(s, events[0]), events[1..]);
    }
  }

  ghost function FailedAbove(s: State, key: Id): set<Id> {
    set id | id in s.attempts && Failed(s.attempts[id]) && key < FailKey(s.attempts[id])
  }

  // Follow the blame: whoever held the key I failed on took it as his smaller key, so if he failed too
  // he failed on a larger one. The keys only go up, and there are finitely many attempts.
  lemma {:induction false} Climb(s: State, id: Id)
    requires BlameInvariant(s) && Complete(s) && BetweenDistinctUsers(s)
    requires id in s.attempts && Failed(s.attempts[id])
    ensures exists winner | winner in s.attempts :: s.attempts[winner].pc.Finished?
    decreases FailedAbove(s, FailKey(s.attempts[id]))
  {
    var key := FailKey(s.attempts[id]);
    assert TakenBySomeone(s, key);
    var blocker :| blocker in s.attempts && Took(s.attempts[blocker], key);
    if !GotBoth(s.attempts[blocker]) {
      var b := s.attempts[blocker];
      assert b.pc == Refused(1);
      assert FailKey(b) == b.Keys()[1] && key == b.Keys()[0];
      assert blocker in FailedAbove(s, key) && blocker !in FailedAbove(s, FailKey(b));
      Climb(s, blocker);
    }
  }

  // In every complete run that starts with no lock held, at least one attempt gets both of its locks
  // and finishes with them.
  lemma SomebodyGetsThrough(s: State, events: seq<Event>)
    requires s.attempts == map[] && (forall key :: !Live(s.locks, key, s.now))
    requires Run(s, events).attempts != map[]
    requires Complete(Run(s, events)) && BetweenDistinctUsers(Run(s, events))
    ensures exists winner | winner in Run(s, events).attempts :: Run(s, events).attempts[winner].pc.Finished?
  {
    RunKeepsBlame(s, events);
    var t := Run(s, events);
    var id :| id in t.attempts;
    if !GotBoth(t.attempts[id]) {
      Climb(t, id);
    }
  }

  // ----- What an attempt leaves behind -----

  // Every live lock is one that some attempt has set and not given back yet.
  ghost predicate LocksAreHeld(s: State) {
    forall key | Live(s.locks, key, s.now) :: exists id :: id in s.attempts && key in s.attempts[id].Held()
  }

  lemma AttemptKeepsLocksHeld(s: State, e: Event)
    requires LocksAreHeld(s) && OfAttempt(e)
    ensures LocksAreHeld(Step(s, e))
  {
    var t := Step(s, e);
    forall key | Live(t.locks, key, t.now)
      ensures exists id :: id in t.attempts && key in t.attempts[id].Held()
    {
      if Live(s.locks, key, s.now) {
        var id :| id in s.attempts && key in s.attempts[id].Held();
        assert id in t.attempts && key in t.attempts[id].Held();
      } else {
        assert e.attempt in t.attempts && key in t.attempts[e.attempt].Held();
      }
    }
  }

  lemma OthersKeepLocksHeld(s: State, e: Event)
    requires LocksAreHeld(s) && !OfAttempt(e)
    ensures LocksAreHeld(Step(s, e))
  {
    var t := Step(s, e);
    forall key | Live(t.locks, key, t.now)
      ensures exists id :: id in t.attempts && key in t.attempts[id].Held()
    {
      assert Live(s.locks, key, s.now);
      var id :| id in s.attempts && key in s.attempts[id].Held();
      assert id in t.attempts && t.attempts[id] == s.attempts[id];
    }
  }

  // In every run from free locks, however late its attempts act, a live lock is held by an attempt that is under way;
  // so once all attempts are over, no lock is left.
  lemma {:induction false} NoLockIsLeftBehind(s: State, events: seq<Event>)
    requires LocksAreHeld(s)
    ensures LocksAreHeld(Run(s, events))
    ensures Complete(Run(s, events)) ==> forall key :: !Live(Run(s, events).locks, key, Run(s, events).now)
    decreases |events|
  {
    if events == [] {
    } else {
      if OfAttempt(events[0]) {
        AttemptKeepsLocksHeld(s, events[0]);
      } else {
        OthersKeepLocksHeld(s, events[0]);
      }
      NoLockIsLeftBehind(Step(s, events[0]), events[1..]);
    }
  }

  // Whatever goes wrong in the try block, the attempt goes on to release both of its locks.
  lemma AbortReleasesBoth(s: State, id: Id)
    requires id in s.attempts
    requires s.attempts[id].pc.Checking? || s.attempts[id].pc.Creating?
    ensures var a := s.attempts[id];
      StepAbort(s, id) == s.(attempts := s.attempts[id := a.(pc := Releasing({a.caller, a.callee}))])
  {
  }
}
