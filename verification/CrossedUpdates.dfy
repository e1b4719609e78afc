// Handlers that load a user and save it later, over whole runs (src/auth/auth.service.ts:606-628,
// src/modules/users/users.service.ts:217-257, 701-737, src/modules/users/user-password.service.ts:138-160).
module CrossedUpdates {
  import opened Common
  import T = TokenEpoch

  // A handler that has loaded its user, passed its checks, and is about to save.
  datatype Pending = Pending(read: T.Account, event: T.Event)

  datatype State = State(base: T.State, pending: map<Id, Pending>)

  datatype Event =
    | Load(op: Id, event: T.Event)
    | Save(op: Id)
    | Whole(event: T.Event)   // any other handler, or one with nothing between load and save

  const START := State(T.START, map[])

  function StepLoad(s: State, op: Id, e: T.Event): State {
    if op in s.pending || !T.EpochEvent(e) || e.user !in s.base.users
       || T.NewEpoch(s.base.users[e.user], e).None? then s
    else s.(pending := s.pending[op := Pending(s.base.users[e.user], e)])
  }

  predicate Saves(s: State, op: Id) {
    op in s.pending && T.EpochEvent(s.pending[op].event) && s.pending[op].event.user in s.base.users
  }

  function StepSave(s: State, op: Id): State {
    if !Saves(s, op) then s.(pending := s.pending - {op})
    else State(T.SavedLate(s.base, s.pending[op].read, s.pending[op].event), s.pending - {op})
  }

  function Step(s: State, e: Event): State {
    match e
    case Load(op, event) => StepLoad(s, op, event)
    case Save(op) => StepSave(s, op)
    case Whole(event) => s.(base := T.Step(s.base, event))
  }

  function Run(s: State, events: seq<Event>): State
    decreases |events|
  {
    if events == [] then s else Run(Step(s, events[0]), events[1..])
  }

  lemma UndisturbedUpdateIsWhole(s: State, op: Id, e: T.Event)
    requires op !in s.pending && T.EpochEvent(e) && e.user in s.base.users
    requires T.NewEpoch(s.base.users[e.user], e).Some?
    ensures StepSave(StepLoad(s, op, e), op).base == T.Step(s.base, e)
  {
  }

  // ----- Epochs in order -----

  ghost predicate AllLater(before: T.State, after: T.State) {
    forall u | u in before.users :: u in after.users && T.LaterEpoch(before.users[u], after.users[u])
  }

  // The version is not the one that was read; one epoch more does no harm if the role stays.
  predicate SavesTooLate(s: State, e: Event) {
    && e.Save? && Saves(s, e.op)
    && var Pending(read, event) := s.pending[e.op];
       var current := s.base.users[event.user];
       && current.tokenVersion != read.tokenVersion
       && !(current.tokenVersion == read.tokenVersion + 1
            && T.SaveLate(current, read, event).role == current.role)
  }

  // Nobody has read a version of the future.
  ghost predicate Sane(s: State) {
    && s.base.sessions.Keys <= s.base.usedIds
    && (forall op | op in s.pending ::
          && T.EpochEvent(s.pending[op].event)
          && s.pending[op].event.user in s.base.users
          && s.pending[op].read.tokenVersion <= s.base.users[s.pending[op].event.user].tokenVersion)
  }

  lemma StepOrdersIff(s: State, e: Event)
    requires Sane(s)
    ensures AllLater(s.base, Step(s, e).base) <==> !SavesTooLate(s, e)
    ensures AllLater(s.base, Step(s, e).base) ==> Sane(Step(s, e))
  {
    match e
    case Load(_, _) =>
    case Save(op) =>
      if Saves(s, op) {
        var Pending(read, event) := s.pending[op];
        T.SaveStartsAnEpochIff(s.base.users[event.user], read, event);
      }
    case Whole(event) => T.StepExtends(s.base, event);
  }

  ghost predicate OrderedThroughout(s: State, events: seq<Event>)
    decreases |events|
  {
    events == []
    || (AllLater(s.base, Step(s, events[0]).base) && OrderedThroughout(Step(s, events[0]), events[1..]))
  }

  predicate NeverTooLate(s: State, events: seq<Event>)
    decreases |events|
  {
    events == [] || (!SavesTooLate(s, events[0]) && NeverTooLate(Step(s, events[0]), events[1..]))
  }

  // In every run of loads, saves and everything else, versions only grow and roles only change with them, throughout,
  // if and only if every save finds the version it read, or one more and no other role to write.
  lemma {:induction false} OrderedThroughoutIff(s: State, events: seq<Event>)
    requires Sane(s)
    ensures OrderedThroughout(s, events) <==> NeverTooLate(s, events)
    decreases |events|
  {
    if events == [] {
    } else {
      StepOrdersIff(s, events[0]);
      if !SavesTooLate(s, events[0]) {
        OrderedThroughoutIff(Step(s, events[0]), events[1..]);
      }
    }
  }

  // ----- What order is good for -----

  lemma SaveKeepsInvariant(s: State, op: Id)
    requires T.Invariant(s.base) && Sane(s) && !SavesTooLate(s, Save(op))
    ensures T.Invariant(StepSave(s, op).base)
  {
    if Saves(s, op) {
      var t := StepSave(s, op).base;
      StepOrdersIff(s, Save(op));
      assert T.Extends(s.base, t);
      forall p | p in t.issued
        ensures T.Known(t, p)
      {
        T.KnownStays(s.base, t, p);
      }
      forall a | a in t.attempts
        ensures T.KnownAttempt(t, t.attempts[a])
      {
        T.AttemptStays(s.base, t, s.base.attempts[a]);
      }
    }
  }

  lemma {:induction false} RunKeepsInvariant(s: State, events: seq<Event>)
    requires T.Invariant(s.base) && Sane(s) && NeverTooLate(s, events)
    ensures T.Invariant(Run(s, events).base)
    decreases |events|
  {
    if events == [] {
    } else {
      StepOrdersIff(s, events[0]);
      match events[0] {
        case Load(_, _) =>
        case Save(op) => SaveKeepsInvariant(s, op);
        case Whole(event) => T.StepKeepsInvariant(s.base, event);
      }
      RunKeepsInvariant(Step(s, events[0]), events[1..]);
    }
  }

  // In every such run every signed token the guard accepts carries the role its user has now.
  lemma AcceptedRoleIsCurrent(events: seq<Event>, p: T.Payload, now: Instant)
    requires NeverTooLate(START, events)
    requires p in Run(START, events).base.issued && T.Validate(Run(START, events).base, p, now).Ok?
    ensures T.Validate(Run(START, events).base, p, now).value.role == Run(START, events).base.users[p.user].role
  {
    RunKeepsInvariant(START, events);
  }
}
