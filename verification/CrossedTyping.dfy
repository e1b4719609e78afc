// Typing handlers as the separate commands they are: set or delete the key, count, broadcast
// (src/modules/realtime/realtime-chat-command.service.ts:212-241, 271-300;
// src/modules/realtime/realtime-event-bridge.service.ts:66-95).
module CrossedTyping {
  import opened Common
  import T = Typing

  // A handler that has changed its key and has not counted yet, or has counted and not broadcast yet.
  datatype Handler = Counting(key: T.Key, typing: bool) | Sending(key: T.Key, typing: bool)

  datatype State = State(base: T.State, handlers: map<Id, Handler>)

  datatype Event =
    | SetKey(op: Id, key: T.Key)
    | RemoveKey(op: Id, key: T.Key)
    | ExpireKey(key: T.Key)
    | TakeNotice(op: Id, index: nat)
    | Count(op: Id)
    | Send(op: Id)

  function Alive(s: State, conversation: string, user: string): set<T.Key> {
    T.Live(s.base.keys, conversation, user)
  }

  function StepSet(s: State, op: Id, k: T.Key): State {
    if op in s.handlers || k in s.base.keys then s
    else State(s.base.(keys := s.base.keys + {k}), s.handlers[op := Counting(k, true)])
  }

  function StepRemove(s: State, op: Id, k: T.Key): State {
    if op in s.handlers || k !in s.base.keys then s
    else State(s.base.(keys := s.base.keys - {k}), s.handlers[op := Counting(k, false)])
  }

  function StepTake(s: State, op: Id, i: nat): State {
    if op in s.handlers || i >= |s.base.notices| then s
    else
      State(s.base.(notices := s.base.notices[..i] + s.base.notices[i + 1..]),
            s.handlers[op := Counting(s.base.notices[i], false)])
  }

  // A start goes on when it counts one key, a stop or an expiry when it counts none.
  function StepCount(s: State, op: Id): State {
    if op !in s.handlers || !s.handlers[op].Counting? then s
    else
      var Counting(k, typing) := s.handlers[op];
      if |Alive(s, k.conversation, k.user)| == (if typing then 1 else 0)
      then s.(handlers := s.handlers[op := Sending(k, typing)])
      else s.(handlers := s.handlers - {op})
  }

  function StepSend(s: State, op: Id): State {
    if op !in s.handlers || !s.handlers[op].Sending? then s
    else State(T.Emit(s.base, s.handlers[op].key, s.handlers[op].typing), s.handlers - {op})
  }

  function Step(s: State, e: Event): State {
    match e
    case SetKey(op, k) => StepSet(s, op, k)
    case RemoveKey(op, k) => StepRemove(s, op, k)
    case ExpireKey(k) => s.(base := T.Expire(s.base, k))
    case TakeNotice(op, i) => StepTake(s, op, i)
    case Count(op) => StepCount(s, op)
    case Send(op) => StepSend(s, op)
  }

  function Run(s: State, events: seq<Event>): State
    decreases |events|
  {
    if events == [] then s else Run(Step(s, events[0]), events[1..])
  }

  const START := State(T.START, map[])

  // ----- What is outstanding -----

  predicate Of(k: T.Key, conversation: string, user: string) {
    k.conversation == conversation && k.user == user
  }

  predicate Told(s: State, conversation: string, user: string) {
    T.LastSent(s.base.sent, conversation, user) == Some(true)
  }

  predicate AboutToSend(s: State, conversation: string, user: string, typing: bool) {
    exists op | op in s.handlers ::
      s.handlers[op].Sending? && s.handlers[op].typing == typing && Of(s.handlers[op].key, conversation, user)
  }

  predicate AboutToCount(s: State, conversation: string, user: string, typing: bool) {
    exists op | op in s.handlers ::
      s.handlers[op].Counting? && s.handlers[op].typing == typing && Of(s.handlers[op].key, conversation, user)
  }

  // Somebody is going to announce a start, as things are.
  predicate StartComes(s: State, conversation: string, user: string) {
    || AboutToSend(s, conversation, user, true)
    || (|Alive(s, conversation, user)| == 1 && AboutToCount(s, conversation, user, true))
  }

  predicate StopComes(s: State, conversation: string, user: string) {
    || T.NoticePending(s.base, conversation, user)
    || AboutToCount(s, conversation, user, false)
    || AboutToSend(s, conversation, user, false)
  }

  // The others have been told what is the case, or somebody is going to tell them.
  ghost predicate Covered(s: State, conversation: string, user: string) {
    if Alive(s, conversation, user) != {}
    then Told(s, conversation, user) || StartComes(s, conversation, user)
    else Told(s, conversation, user) ==> StopComes(s, conversation, user)
  }

  // With nothing outstanding the others were told "typing" last exactly for those who type.
  lemma CoveredMeansAgreed(s: State, conversation: string, user: string)
    requires forall op | op in s.handlers :: !Of(s.handlers[op].key, conversation, user)
    ensures Covered(s, conversation, user) <==> T.Agrees(s.base, conversation, user)
  {
  }

  // ----- Which steps lose an announcement -----

  // A second key is set before the first has been counted.
  predicate CrossesAStart(s: State, e: Event, conversation: string, user: string) {
    && e.SetKey? && e.op !in s.handlers && e.key !in s.base.keys && Of(e.key, conversation, user)
    && |Alive(s, conversation, user)| == 1
    && !Told(s, conversation, user) && !AboutToSend(s, conversation, user, true)
  }

  // "Typing" is broadcast after the key has gone and everybody who could take it back has spoken.
  predicate StartComesLate(s: State, e: Event, conversation: string, user: string) {
    && e.Send? && e.op in s.handlers && s.handlers[e.op].Sending? && s.handlers[e.op].typing
    && Of(s.handlers[e.op].key, conversation, user)
    && Alive(s, conversation, user) == {} && !StopComes(s, conversation, user)
  }

  // "Stopped" is broadcast although there is a key again, whose start has been announced already.
  predicate StopComesLate(s: State, e: Event, conversation: string, user: string) {
    && e.Send? && e.op in s.handlers && s.handlers[e.op].Sending? && !s.handlers[e.op].typing
    && Of(s.handlers[e.op].key, conversation, user)
    && Alive(s, conversation, user) != {} && !StartComes(s, conversation, user)
  }

  predicate Crossed(s: State, e: Event, conversation: string, user: string) {
    || CrossesAStart(s, e, conversation, user)
    || StartComesLate(s, e, conversation, user)
    || StopComesLate(s, e, conversation, user)
  }

  // ----- Each step keeps the others covered exactly when it does not cross -----

  lemma SetKeepsIff(s: State, op: Id, k: T.Key, conversation: string, user: string)
    requires Covered(s, conversation, user)
    ensures Covered(StepSet(s, op, k), conversation, user) <==> !CrossesAStart(s, SetKey(op, k), conversation, user)
  {
    var t := StepSet(s, op, k);
    if op !in s.handlers && k !in s.base.keys {
      HandlerAdded(s, t, op, conversation, user);
      var live, after := Alive(s, conversation, user), Alive(t, conversation, user);
      if Of(k, conversation, user) {
        assert after == live + {k} && |after| == |live| + 1;
        assert t.handlers[op] == Counting(k, true);
      } else {
        assert after == live;
      }
    }
  }

  // A new handler that counts adds to what is outstanding, and takes nothing away.
  lemma HandlerAdded(s: State, t: State, op: Id, conversation: string, user: string)
    requires op !in s.handlers && op in t.handlers && t.handlers == s.handlers[op := t.handlers[op]]
    requires t.handlers[op].Counting?
    ensures forall typing :: AboutToSend(t, conversation, user, typing) <==> AboutToSend(s, conversation, user, typing)
    ensures forall typing :: AboutToCount(t, conversation, user, typing) <==>
      || AboutToCount(s, conversation, user, typing)
      || (t.handlers[op].typing == typing && Of(t.handlers[op].key, conversation, user))
  {
    forall o | o in s.handlers
      ensures o in t.handlers && t.handlers[o] == s.handlers[o]
    {
    }
  }

  // A handler that is done takes away what it was about to do, at most.
  lemma HandlerGone(s: State, t: State, op: Id, conversation: string, user: string)
    requires op in s.handlers && t.handlers == s.handlers - {op}
    ensures forall typing | typing != s.handlers[op].typing || !Of(s.handlers[op].key, conversation, user) ::
      && (AboutToSend(t, conversation, user, typing) <==> AboutToSend(s, conversation, user, typing))
      && (AboutToCount(t, conversation, user, typing) <==> AboutToCount(s, conversation, user, typing))
    ensures forall typing | s.handlers[op].Counting? ::
      AboutToSend(t, conversation, user, typing) <==> AboutToSend(s, conversation, user, typing)
  {
    forall o | o in s.handlers && o != op
      ensures o in t.handlers && t.handlers[o] == s.handlers[o]
    {
    }
  }

  lemma RemoveKeeps(s: State, op: Id, k: T.Key, conversation: string, user: string)
    requires Covered(s, conversation, user)
    ensures Covered(StepRemove(s, op, k), conversation, user)
  {
    var t := StepRemove(s, op, k);
    if op !in s.handlers && k in s.base.keys {
      HandlerAdded(s, t, op, conversation, user);
      KeyGone(s, t, k, conversation, user);
    }
  }

  lemma KeyGone(s: State, t: State, k: T.Key, conversation: string, user: string)
    requires k in s.base.keys && t.base.keys == s.base.keys - {k}
    ensures var live, after := Alive(s, conversation, user), Alive(t, conversation, user);
      if Of(k, conversation, user) then k in live && after == live - {k} && |after| == |live| - 1 else after == live
  {
    if Of(k, conversation, user) {
      assert Alive(t, conversation, user) == Alive(s, conversation, user) - {k};
    } else {
      assert Alive(t, conversation, user) == Alive(s, conversation, user);
    }
  }

  lemma ExpireKeeps(s: State, k: T.Key, conversation: string, user: string)
    requires Covered(s, conversation, user)
    ensures Covered(Step(s, ExpireKey(k)), conversation, user)
  {
    var t := Step(s, ExpireKey(k));
    if k in s.base.keys {
      KeyGone(s, t, k, conversation, user);
      assert t.base.notices == s.base.notices + [k];
      assert k in t.base.notices && forall n | n in s.base.notices :: n in t.base.notices;
      assert t.handlers == s.handlers;
    }
  }

  lemma TakeKeeps(s: State, op: Id, i: nat, conversation: string, user: string)
    requires Covered(s, conversation, user)
    ensures Covered(StepTake(s, op, i), conversation, user)
  {
    var t := StepTake(s, op, i);
    if op !in s.handlers && i < |s.base.notices| {
      HandlerAdded(s, t, op, conversation, user);
      var k := s.base.notices[i];
      if !Of(k, conversation, user) {
        forall n | n in s.base.notices && Of(n, conversation, user)
          ensures n in t.base.notices
        {
          var j :| 0 <= j < |s.base.notices| && s.base.notices[j] == n;
          assert n == if j < i then s.base.notices[..i][j] else s.base.notices[i + 1..][j - i - 1];
        }
      }
    }
  }

  lemma CountKeeps(s: State, op: Id, conversation: string, user: string)
    requires Covered(s, conversation, user)
    ensures Covered(StepCount(s, op), conversation, user)
  {
    var t := StepCount(s, op);
    if op in s.handlers && s.handlers[op].Counting? {
      var Counting(k, typing) := s.handlers[op];
      assert t.base == s.base;
      if |Alive(s, k.conversation, k.user)| == (if typing then 1 else 0) {
        assert t.handlers[op] == Sending(k, typing);
        forall o | o in s.handlers && o != op
          ensures o in t.handlers && t.handlers[o] == s.handlers[o]
        {
        }
      } else {
        HandlerGone(s, t, op, conversation, user);
      }
    }
  }

  lemma SendKeepsIff(s: State, op: Id, conversation: string, user: string)
    requires Covered(s, conversation, user)
    ensures Covered(StepSend(s, op), conversation, user) <==>
      !StartComesLate(s, Send(op), conversation, user) && !StopComesLate(s, Send(op), conversation, user)
  {
    var t := StepSend(s, op);
    if op in s.handlers && s.handlers[op].Sending? {
      var Sending(k, typing) := s.handlers[op];
      HandlerGone(s, t, op, conversation, user);
      T.LastSentAfter(s.base.sent, T.Broadcast(k.conversation, k.user, typing), conversation, user);
      assert Alive(t, conversation, user) == Alive(s, conversation, user);
    }
  }

  lemma StepKeepsIff(s: State, e: Event, conversation: string, user: string)
    requires Covered(s, conversation, user)
    ensures Covered(Step(s, e), conversation, user) <==> !Crossed(s, e, conversation, user)
  {
    match e
    case SetKey(op, k) => SetKeepsIff(s, op, k, conversation, user);
    case RemoveKey(op, k) => RemoveKeeps(s, op, k, conversation, user);
    case ExpireKey(k) => ExpireKeeps(s, k, conversation, user);
    case TakeNotice(op, i) => TakeKeeps(s, op, i, conversation, user);
    case Count(op) => CountKeeps(s, op, conversation, user);
    case Send(op) => SendKeepsIff(s, op, conversation, user);
  }

  // ----- Runs -----

  ghost predicate CoveredThroughout(s: State, events: seq<Event>, conversation: string, user: string)
    decreases |events|
  {
    && Covered(s, conversation, user)
    && (events == [] || CoveredThroughout(Step(s, events[0]), events[1..], conversation, user))
  }

  predicate NeverCrossed(s: State, events: seq<Event>, conversation: string, user: string)
    decreases |events|
  {
    || events == []
    || (!Crossed(s, events[0], conversation, user)
        && NeverCrossed(Step(s, events[0]), events[1..], conversation, user))
  }

  // In every run of single commands by any number of handlers, the others have been told throughout what is the
  // case, or are about to be told, if and only if no step crosses.
  lemma {:induction false} CoveredThroughoutIff(s: State, events: seq<Event>, conversation: string, user: string)
    requires Covered(s, conversation, user)
    ensures CoveredThroughout(s, events, conversation, user) <==> NeverCrossed(s, events, conversation, user)
    ensures NeverCrossed(s, events, conversation, user) ==> Covered(Run(s, events), conversation, user)
    decreases |events|
  {
    if events == [] {
    } else {
      StepKeepsIff(s, events[0], conversation, user);
      if !Crossed(s, events[0], conversation, user) {
        CoveredThroughoutIff(Step(s, events[0]), events[1..], conversation, user);
      }
    }
  }

  // A run from the start without a crossing that leaves no handler and no notice of the pair behind has told the
  // others last exactly whether the user types.
  lemma SettledRunsAgree(events: seq<Event>, conversation: string, user: string)
    requires NeverCrossed(START, events, conversation, user)
    requires var s := Run(START, events);
      && (forall op | op in s.handlers :: !Of(s.handlers[op].key, conversation, user))
      && !T.NoticePending(s.base, conversation, user)
    ensures var s := Run(START, events);
      Told(s, conversation, user) <==> Alive(s, conversation, user) != {}
  {
    assert Alive(START, conversation, user) == {};
    CoveredThroughoutIff(START, events, conversation, user);
    CoveredMeansAgreed(Run(START, events), conversation, user);
  }

  // ----- Handlers that nothing comes between -----

  lemma RunThree(s: State, e1: Event, e2: Event, e3: Event)
    ensures Run(s, [e1, e2, e3]) == Step(Step(Step(s, e1), e2), e3)
  {
    var one, two, three := Step(s, e1), Step(Step(s, e1), e2), Step(Step(Step(s, e1), e2), e3);
    assert [e1, e2, e3][1..] == [e2, e3] && [e2, e3][1..] == [e3] && [e3][1..] == [];
    assert Run(three, []) == three;
    assert Run(two, [e3]) == three;
    assert Run(one, [e2, e3]) == three;
  }

  lemma HandlerDone(handlers: map<Id, Handler>, op: Id, h: Handler)
    requires op !in handlers
    ensures handlers[op := h] - {op} == handlers
  {
  }

  // Count and broadcast of a handler of its own number.
  lemma CountThenSend(s: State, op: Id, k: T.Key, typing: bool)
    requires op in s.handlers && s.handlers[op] == Counting(k, typing)
    ensures StepSend(StepCount(s, op), op) == State(
      if |Alive(s, k.conversation, k.user)| == (if typing then 1 else 0) then T.Emit(s.base, k, typing) else s.base,
      s.handlers - {op})
  {
    assert s.handlers[op := Sending(k, typing)] - {op} == s.handlers - {op};
  }

  lemma UndisturbedStart(s: State, op: Id, k: T.Key)
    requires op !in s.handlers
    ensures Run(s, [SetKey(op, k), Count(op), Send(op)]) == State(T.Start(s.base, k), s.handlers)
  {
    RunThree(s, SetKey(op, k), Count(op), Send(op));
    if k !in s.base.keys {
      CountThenSend(StepSet(s, op, k), op, k, true);
      HandlerDone(s.handlers, op, Counting(k, true));
    }
  }

  lemma UndisturbedStop(s: State, op: Id, k: T.Key)
    requires op !in s.handlers
    ensures Run(s, [RemoveKey(op, k), Count(op), Send(op)]) == State(T.Stop(s.base, k), s.handlers)
  {
    RunThree(s, RemoveKey(op, k), Count(op), Send(op));
    if k in s.base.keys {
      CountThenSend(StepRemove(s, op, k), op, k, false);
      HandlerDone(s.handlers, op, Counting(k, false));
    }
  }

  lemma UndisturbedNotice(s: State, op: Id, i: nat)
    requires op !in s.handlers
    ensures Run(s, [TakeNotice(op, i), Count(op), Send(op)]) == State(T.Notice(s.base, i), s.handlers)
  {
    RunThree(s, TakeNotice(op, i), Count(op), Send(op));
    if i < |s.base.notices| {
      CountThenSend(StepTake(s, op, i), op, s.base.notices[i], false);
      HandlerDone(s.handlers, op, Counting(s.base.notices[i], false));
    }
  }

  // The three commands of a handler in a row are the single steps the other theorems on typing are about.
  lemma UndisturbedHandlersAreSteps(s: State, op: Id, k: T.Key, i: nat)
    requires op !in s.handlers
    ensures Run(s, [SetKey(op, k), Count(op), Send(op)]) == State(T.Start(s.base, k), s.handlers)
    ensures Run(s, [RemoveKey(op, k), Count(op), Send(op)]) == State(T.Stop(s.base, k), s.handlers)
    ensures Run(s, [TakeNotice(op, i), Count(op), Send(op)]) == State(T.Notice(s.base, i), s.handlers)
  {
    UndisturbedStart(s, op, k);
    UndisturbedStop(s, op, k);
    UndisturbedNotice(s, op, i);
  }

  // ----- Three crossings, from any state -----

  predicate TwoHandlers(s: State, a: Id, b: Id, k: T.Key, l: T.Key) {
    && a != b && a !in s.handlers && b !in s.handlers
    && k != l && l.conversation == k.conversation && l.user == k.user
  }

  // Number of live keys after one more of the pair.
  lemma OneMore(keys: set<T.Key>, k: T.Key)
    requires k !in keys
    ensures T.Live(keys + {k}, k.conversation, k.user) == T.Live(keys, k.conversation, k.user) + {k}
    ensures |T.Live(keys + {k}, k.conversation, k.user)| == |T.Live(keys, k.conversation, k.user)| + 1
  {
    assert T.Live(keys + {k}, k.conversation, k.user) == T.Live(keys, k.conversation, k.user) + {k};
  }

  lemma CountDrops(s: State, op: Id, k: T.Key, typing: bool)
    requires op in s.handlers && s.handlers[op] == Counting(k, typing)
    requires |Alive(s, k.conversation, k.user)| != (if typing then 1 else 0)
    ensures StepCount(s, op) == s.(handlers := s.handlers - {op})
  {
  }

  // Two sockets set their keys before either counts: neither is announced ...
  lemma CrossedStartsSayNothing(s: State, a: Id, b: Id, k: T.Key, l: T.Key)
    requires TwoHandlers(s, a, b, k, l) && k !in s.base.keys && l !in s.base.keys
    ensures var t := StepCount(StepCount(StepSet(StepSet(s, a, k), b, l), a), b);
      && t == State(s.base.(keys := s.base.keys + {k} + {l}), s.handlers)
      && |Alive(t, k.conversation, k.user)| >= 2
  {
    OneMore(s.base.keys, k);
    OneMore(s.base.keys + {k}, l);
    var one := StepSet(s, a, k);
    var two := StepSet(one, b, l);
    CountDrops(two, a, k, true);
    assert two.handlers - {a} == s.handlers[b := Counting(l, true)];
    var three := State(two.base, s.handlers[b := Counting(l, true)]);
    CountDrops(three, b, l, true);
    HandlerDone(s.handlers, b, Counting(l, true));
  }

  // ... so the others are told the truth exactly if they had been told "typing" before; with no notice waiting,
  // exactly if a key was alive before.
  lemma CrossedStartsAgreeIff(s: State, a: Id, b: Id, k: T.Key, l: T.Key)
    requires TwoHandlers(s, a, b, k, l) && k !in s.base.keys && l !in s.base.keys
    requires T.Agrees(s.base, k.conversation, k.user)
    ensures var c, u := k.conversation, k.user;
      var t := StepCount(StepCount(StepSet(StepSet(s, a, k), b, l), a), b);
      && t == State(s.base.(keys := s.base.keys + {k} + {l}), s.handlers)
      && (T.Agrees(t.base, c, u) <==> Told(s, c, u))
      && (!T.NoticePending(s.base, c, u) ==> (T.Agrees(t.base, c, u) <==> Alive(s, c, u) != {}))
  {
    CrossedStartsSayNothing(s, a, b, k, l);
  }

  // What a last broadcast leaves behind.
  lemma LastWord(base: T.State, k: T.Key, typing: bool)
    ensures T.Agrees(T.Emit(base, k, typing), k.conversation, k.user) <==>
      if typing then T.Live(base.keys, k.conversation, k.user) != {} || T.NoticePending(base, k.conversation, k.user)
      else T.Live(base.keys, k.conversation, k.user) == {}
  {
    T.LastSentAfter(base.sent, T.Broadcast(k.conversation, k.user, typing), k.conversation, k.user);
  }

  // A start has counted when its key is removed, and the stop is broadcast first.
  function Reversed(s: State, a: Id, b: Id, k: T.Key): State {
    StepSend(StepSend(StepCount(StepRemove(StepCount(StepSet(s, a, k), a), b, k), b), b), a)
  }

  lemma ReversedAlone(s: State, a: Id, b: Id, k: T.Key)
    requires a != b && a !in s.handlers && b !in s.handlers && k !in s.base.keys
    requires Alive(s, k.conversation, k.user) == {}
    ensures Reversed(s, a, b, k) == State(T.Emit(T.Emit(s.base, k, false), k, true), s.handlers)
  {
    var sending := s.handlers[a := Sending(k, true)];
    OneMore(s.base.keys, k);
    var two := State(s.base.(keys := s.base.keys + {k}), sending);
    assert StepCount(StepSet(s, a, k), a) == two;
    assert s.base.keys + {k} - {k} == s.base.keys;
    var three := State(s.base, sending[b := Counting(k, false)]);
    assert StepRemove(two, b, k) == three;
    CountThenSend(three, b, k, false);
    HandlerDone(sending, b, Counting(k, false));
    HandlerDone(s.handlers, a, Sending(k, true));
  }

  lemma ReversedAmongOthers(s: State, a: Id, b: Id, k: T.Key)
    requires a != b && a !in s.handlers && b !in s.handlers && k !in s.base.keys
    requires Alive(s, k.conversation, k.user) != {}
    ensures Reversed(s, a, b, k) == s
  {
    OneMore(s.base.keys, k);
    var one := StepSet(s, a, k);
    CountDrops(one, a, k, true);
    HandlerDone(s.handlers, a, Counting(k, true));
    assert s.base.keys + {k} - {k} == s.base.keys;
    var three := State(s.base, s.handlers[b := Counting(k, false)]);
    assert StepRemove(State(one.base, s.handlers), b, k) == three;
    CountDrops(three, b, k, false);
    HandlerDone(s.handlers, b, Counting(k, false));
  }

  // "Typing" is then the last word although no key is left, exactly if none was there before and no notice waits.
  lemma ReversedBroadcastsAgreeIff(s: State, a: Id, b: Id, k: T.Key)
    requires a != b && a !in s.handlers && b !in s.handlers && k !in s.base.keys
    requires T.Agrees(s.base, k.conversation, k.user)
    ensures var c, u := k.conversation, k.user; var t := Reversed(s, a, b, k);
      && t.base.keys == s.base.keys && t.base.notices == s.base.notices && t.handlers == s.handlers
      && (T.Agrees(t.base, c, u) <==> Alive(s, c, u) != {} || T.NoticePending(s.base, c, u))
  {
    if Alive(s, k.conversation, k.user) == {} {
      ReversedAlone(s, a, b, k);
      LastWord(T.Emit(s.base, k, false), k, true);
    } else {
      ReversedAmongOthers(s, a, b, k);
    }
  }

  // A stop has counted when another socket starts, and the start is broadcast first.
  function LateStop(s: State, a: Id, b: Id, k: T.Key, l: T.Key): State {
    StepSend(StepSend(StepCount(StepSet(StepCount(StepRemove(s, a, k), a), b, l), b), b), a)
  }

  lemma LateStopAlone(s: State, a: Id, b: Id, k: T.Key, l: T.Key)
    requires TwoHandlers(s, a, b, k, l) && k in s.base.keys && l !in s.base.keys
    requires Alive(s, k.conversation, k.user) == {k}
    ensures LateStop(s, a, b, k, l)
      == State(T.Emit(T.Emit(s.base.(keys := s.base.keys - {k} + {l}), l, true), k, false), s.handlers)
  {
    var rest := s.base.keys - {k};
    var sending := s.handlers[a := Sending(k, false)];
    assert T.Live(rest, k.conversation, k.user) == {};
    var two := State(s.base.(keys := rest), sending);
    assert StepCount(StepRemove(s, a, k), a) == two;
    OneMore(rest, l);
    var three := StepSet(two, b, l);
    CountThenSend(three, b, l, true);
    HandlerDone(sending, b, Counting(l, true));
    HandlerDone(s.handlers, a, Sending(k, false));
  }

  lemma LateStopAmongOthers(s: State, a: Id, b: Id, k: T.Key, l: T.Key)
    requires TwoHandlers(s, a, b, k, l) && k in s.base.keys && l !in s.base.keys
    requires Alive(s, k.conversation, k.user) != {k}
    ensures LateStop(s, a, b, k, l) == s.(base := s.base.(keys := s.base.keys - {k} + {l}))
  {
    var rest := s.base.keys - {k};
    OneMore(rest, k);
    assert rest + {k} == s.base.keys;
    var one := StepRemove(s, a, k);
    CountDrops(one, a, k, false);
    HandlerDone(s.handlers, a, Counting(k, false));
    OneMore(rest, l);
    var three := State(s.base.(keys := rest + {l}), s.handlers[b := Counting(l, true)]);
    assert StepSet(State(one.base, s.handlers), b, l) == three;
    CountDrops(three, b, l, true);
    HandlerDone(s.handlers, b, Counting(l, true));
  }

  // "Stopped" is then the last word although a key is alive, exactly if the removed key was the only one.
  lemma LateStopAgreesIff(s: State, a: Id, b: Id, k: T.Key, l: T.Key)
    requires TwoHandlers(s, a, b, k, l) && k in s.base.keys && l !in s.base.keys
    requires T.Agrees(s.base, k.conversation, k.user)
    ensures var c, u := k.conversation, k.user; var t := LateStop(s, a, b, k, l);
      && t.base.keys == s.base.keys - {k} + {l} && t.handlers == s.handlers
      && (T.Agrees(t.base, c, u) <==> Alive(s, c, u) != {k})
  {
    var swapped := s.base.(keys := s.base.keys - {k} + {l});
    OneMore(s.base.keys - {k}, l);
    if Alive(s, k.conversation, k.user) == {k} {
      LateStopAlone(s, a, b, k, l);
      LastWord(T.Emit(swapped, l, true), k, false);
    } else {
      LateStopAmongOthers(s, a, b, k, l);
      OneMore(s.base.keys - {k}, k);
      assert s.base.keys - {k} + {k} == s.base.keys;
    }
  }
}
