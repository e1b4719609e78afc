// Friend requests and blocks whose look-ups and writes are separate commands
// (src/modules/relationships/relationship-request.service.ts:40-165, relationship-block.service.ts:26-86).
// A block that finds no record calls create, which looks a second time. The unique index is on the ordered pair
// (src/modules/relationships/schemas/relationship.schema.ts:30).
module CrossedRequests {
  import opened Common
  import opened Relationships

  // Where a handler is after a look-up.
  datatype Handler =
    | Blocking(user: Id, target: Id)                     // blockUser found no record
    | Inserting(user: Id, target: Id, status: Status)    // create found no record
    | Accepting(user: Id, target: Id, r: Id)             // create found the request of the other side
    | Overwriting(user: Id, target: Id, r: Id)           // blockUser found a record that is no block

  // `used` holds every record id handed out so far.
  datatype State = State(store: Store, used: set<Id>, handlers: map<Id, Handler>)

  datatype SplitEvent =
    | LookUpRequest(op: Id, user: Id, target: Id, found: Option<Id>)
    | LookUpBlock(op: Id, user: Id, target: Id, found: Option<Id>)
    | LookUpAgain(op: Id, found: Option<Id>)
    | Insert(op: Id, r: Id)
    | AcceptFound(op: Id)
    | Overwrite(op: Id)
    | Whole(event: Event)   // any handler as one step

  predicate IndexAllows(s: Store, requester: Id, recipient: Id) {
    forall r | r in s :: !(s[r].requester == requester && s[r].recipient == recipient)
  }

  function NewRecord(user: Id, target: Id, status: Status): Relationship {
    Relationship(user, target, status, if status.Blocked? then Some(user) else None)
  }

  predicate NoneBetween(s: Store, a: Id, b: Id) {
    forall r | r in s :: !s[r].Between(a, b)
  }

  function With(s: State, op: Id, h: Handler): State {
    s.(handlers := s.handlers[op := h])
  }

  function Done(s: State, op: Id): State {
    s.(handlers := s.handlers - {op})
  }

  // The look-up in create.
  function LookUp(s: State, op: Id, user: Id, target: Id, status: Status, found: Option<Id>): State
    requires Finds(s.store, user, target, found)
  {
    if found.None? then With(s, op, Inserting(user, target, status))
    else if s.store[found.value].status.Pending? && s.store[found.value].requester != user
    then With(s, op, Accepting(user, target, found.value))
    else Done(s, op)
  }

  function StepLookUpRequest(s: State, op: Id, user: Id, target: Id, found: Option<Id>): State {
    if op in s.handlers || user == target || !Finds(s.store, user, target, found) then s
    else LookUp(s, op, user, target, Pending, found)
  }

  function StepLookUpBlock(s: State, op: Id, user: Id, target: Id, found: Option<Id>): State {
    if op in s.handlers || user == target || !Finds(s.store, user, target, found) then s
    else if found.None? then With(s, op, Blocking(user, target))
    else if s.store[found.value].status.Blocked? then s
    else With(s, op, Overwriting(user, target, found.value))
  }

  function StepLookUpAgain(s: State, op: Id, found: Option<Id>): State {
    if op !in s.handlers || !s.handlers[op].Blocking? then s
    else
      var Blocking(user, target) := s.handlers[op];
      if !Finds(s.store, user, target, found) then s else LookUp(s, op, user, target, Blocked, found)
  }

  // The index refuses a second record of the same requester and recipient.
  function StepInsert(s: State, op: Id, r: Id): State {
    if op !in s.handlers || !s.handlers[op].Inserting? || r in s.used then s
    else
      var Inserting(user, target, status) := s.handlers[op];
      if IndexAllows(s.store, user, target)
      then State(s.store[r := NewRecord(user, target, status)], s.used + {r}, s.handlers - {op})
      else Done(s, op)
  }

  function StepAccept(s: State, op: Id): State {
    if op !in s.handlers || !s.handlers[op].Accepting? then s
    else
      var Accepting(user, target, r) := s.handlers[op];
      var accepted := Accept(s.store, r, user, target, true);
      if accepted.Ok? then Done(s, op).(store := accepted.value) else Done(s, op)
  }

  // The update of blockUser does not ask for the status of the record.
  function StepOverwrite(s: State, op: Id): State {
    if op !in s.handlers || !s.handlers[op].Overwriting? then s
    else
      var Overwriting(user, target, r) := s.handlers[op];
      if r in s.store
      then Done(s, op).(store := s.store[r := s.store[r].(status := Blocked, blockedBy := Some(user))])
      else Done(s, op)
  }

  function StepWhole(s: State, e: Event): State {
    if (e.RequestEvent? || e.BlockEvent?) && e.r in s.used then s
    else
      var store := Step(s.store, e);
      s.(store := store, used := s.used + store.Keys)
  }

  function SplitStep(s: State, e: SplitEvent): State {
    match e
    case LookUpRequest(op, user, target, found) => StepLookUpRequest(s, op, user, target, found)
    case LookUpBlock(op, user, target, found) => StepLookUpBlock(s, op, user, target, found)
    case LookUpAgain(op, found) => StepLookUpAgain(s, op, found)
    case Insert(op, r) => StepInsert(s, op, r)
    case AcceptFound(op) => StepAccept(s, op)
    case Overwrite(op) => StepOverwrite(s, op)
    case Whole(event) => StepWhole(s, event)
  }

  function SplitRun(s: State, events: seq<SplitEvent>): State
    decreases |events|
  {
    if events == [] then s else SplitRun(SplitStep(s, events[0]), events[1..])
  }

  // ----- Handlers that nothing comes between -----

  lemma UndisturbedRequestIsWhole(s: State, op: Id, r: Id, user: Id, target: Id, found: Option<Id>)
    requires op !in s.handlers && r !in s.used && s.store.Keys <= s.used
    requires user != target && Finds(s.store, user, target, found)
    ensures var looked := StepLookUpRequest(s, op, user, target, found);
      StepAccept(StepInsert(looked, op, r), op).store == Step(s.store, RequestEvent(r, user, target, true, found))
  {
  }

  lemma UndisturbedBlockIsWhole(s: State, op: Id, r: Id, user: Id, target: Id, found: Option<Id>)
    requires op !in s.handlers && r !in s.used && s.store.Keys <= s.used
    requires user != target && Finds(s.store, user, target, found)
    ensures var looked := StepLookUpAgain(StepLookUpBlock(s, op, user, target, found), op, found);
      StepOverwrite(StepInsert(looked, op, r), op).store == Step(s.store, BlockEvent(r, user, target, true, found))
  {
  }

  // ----- One record per pair -----

  // Handlers are about two users, and the records they found are records of these two, if they still exist.
  ghost predicate Sane(s: State) {
    && s.store.Keys <= s.used
    && (forall op | op in s.handlers :: SaneHandler(s, s.handlers[op]))
  }

  ghost predicate SaneHandler(s: State, h: Handler) {
    && h.user != h.target
    && (h.Inserting? ==> !h.status.Accepted?)
    && (h.Accepting? || h.Overwriting? ==>
          h.r in s.used && (h.r in s.store ==> s.store[h.r].Between(h.user, h.target)))
  }

  // An insert the index lets through although the other user's record has come in the meantime.
  predicate Crossed(s: State, e: SplitEvent) {
    && e.Insert? && e.op in s.handlers && s.handlers[e.op].Inserting? && e.r !in s.used
    && IndexAllows(s.store, s.handlers[e.op].user, s.handlers[e.op].target)
    && !IndexAllows(s.store, s.handlers[e.op].target, s.handlers[e.op].user)
  }

  lemma InsertKeepsIff(s: Store, r: Id, record: Relationship)
    requires Invariant(s) && r !in s && Sound(record)
    ensures Invariant(s[r := record]) <==> NoneBetween(s, record.requester, record.recipient)
  {
    var t := s[r := record];
    if !NoneBetween(s, record.requester, record.recipient) {
      var q :| q in s && s[q].Between(record.requester, record.recipient);
      assert t[q].Between(t[r].requester, t[r].recipient);
    }
  }

  // Records keep their two users, and no id is used twice.
  ghost predicate Follows(s: State, t: State) {
    && s.used <= t.used && t.store.Keys <= t.used
    && (forall r | r in t.store && r in s.used ::
          && r in s.store
          && t.store[r].requester == s.store[r].requester && t.store[r].recipient == s.store[r].recipient)
  }

  lemma WholeFollows(s: State, e: Event)
    requires s.store.Keys <= s.used
    ensures Follows(s, StepWhole(s, e))
  {
    if (e.RequestEvent? || e.BlockEvent?) && e.r in s.used {
    } else {
      match e
      case RequestEvent(_, _, _, _, _) =>
      case AcceptEvent(_, _, _, _) =>
      case DeleteEvent(_, _, _, _, _) =>
      case BlockEvent(_, _, _, _, _) =>
      case UnblockEvent(_, _, _, _) =>
    }
  }

  lemma StepFollows(s: State, e: SplitEvent)
    requires s.store.Keys <= s.used
    ensures Follows(s, SplitStep(s, e))
  {
    match e
    case LookUpRequest(_, _, _, _) =>
    case LookUpBlock(_, _, _, _) =>
    case LookUpAgain(_, _) =>
    case Insert(_, _) =>
    case AcceptFound(_) =>
    case Overwrite(_) =>
    case Whole(event) => WholeFollows(s, event);
  }

  lemma StepStaysSane(s: State, e: SplitEvent)
    requires Sane(s)
    ensures Sane(SplitStep(s, e))
  {
    var t := SplitStep(s, e);
    StepFollows(s, e);
    forall op | op in t.handlers
      ensures SaneHandler(t, t.handlers[op])
    {
      if op in s.handlers && t.handlers[op] == s.handlers[op] {
        assert SaneHandler(s, s.handlers[op]);
      } else {
        NewHandlerIsSane(s, e, op);
      }
    }
  }

  lemma NewHandlerIsSane(s: State, e: SplitEvent, op: Id)
    requires Sane(s) && op in SplitStep(s, e).handlers
    requires op in s.handlers ==> SplitStep(s, e).handlers[op] != s.handlers[op]
    ensures SaneHandler(SplitStep(s, e), SplitStep(s, e).handlers[op])
  {
    match e
    case LookUpRequest(_, _, _, _) =>
    case LookUpBlock(_, _, _, _) =>
    case LookUpAgain(o, _) => assert SaneHandler(s, s.handlers[o]);
    case Insert(_, _) =>
    case AcceptFound(_) =>
    case Overwrite(_) =>
    case Whole(_) =>
  }

  lemma InsertStepKeepsIff(s: State, op: Id, r: Id)
    requires Invariant(s.store) && Sane(s)
    ensures Invariant(StepInsert(s, op, r).store) <==> !Crossed(s, Insert(op, r))
  {
    if op in s.handlers && s.handlers[op].Inserting? && r !in s.used {
      var Inserting(user, target, status) := s.handlers[op];
      assert SaneHandler(s, s.handlers[op]);
      assert Sound(NewRecord(user, target, status));
      InsertKeepsIff(s.store, r, NewRecord(user, target, status));
      assert NoneBetween(s.store, user, target)
        <==> IndexAllows(s.store, user, target) && IndexAllows(s.store, target, user);
    }
  }

  // Updates of one record in place.
  lemma UpdateKeeps(s: Store, r: Id, record: Relationship)
    requires Invariant(s) && r in s && Sound(record)
    requires record.requester == s[r].requester && record.recipient == s[r].recipient
    ensures Invariant(s[r := record])
  {
  }

  lemma StepKeepsIff(s: State, e: SplitEvent)
    requires Invariant(s.store) && Sane(s)
    ensures Invariant(SplitStep(s, e).store) <==> !Crossed(s, e)
    ensures Sane(SplitStep(s, e))
  {
    StepStaysSane(s, e);
    match e
    case LookUpRequest(_, _, _, _) =>
    case LookUpBlock(_, _, _, _) =>
    case LookUpAgain(_, _) =>
    case Insert(op, r) => InsertStepKeepsIff(s, op, r);
    case AcceptFound(op) => AcceptKeeps(s, op);
    case Overwrite(op) => OverwriteKeeps(s, op);
    case Whole(event) => StepKeepsInvariant(s.store, event);
  }

  lemma AcceptKeeps(s: State, op: Id)
    requires Invariant(s.store)
    ensures Invariant(StepAccept(s, op).store)
  {
    if op in s.handlers && s.handlers[op].Accepting? {
      var Accepting(user, target, r) := s.handlers[op];
      if Accept(s.store, r, user, target, true).Ok? {
        assert Sound(s.store[r]);
        UpdateKeeps(s.store, r, s.store[r].(status := Accepted));
      }
    }
  }

  lemma OverwriteKeeps(s: State, op: Id)
    requires Invariant(s.store) && Sane(s)
    ensures Invariant(StepOverwrite(s, op).store)
  {
    if op in s.handlers && s.handlers[op].Overwriting? && s.handlers[op].r in s.store {
      var Overwriting(user, target, r) := s.handlers[op];
      assert SaneHandler(s, s.handlers[op]) && Sound(s.store[r]);
      UpdateKeeps(s.store, r, s.store[r].(status := Blocked, blockedBy := Some(user)));
    }
  }

  ghost predicate SoundThroughout(s: State, events: seq<SplitEvent>)
    decreases |events|
  {
    Invariant(s.store) && (events == [] || SoundThroughout(SplitStep(s, events[0]), events[1..]))
  }

  predicate NeverCrossed(s: State, events: seq<SplitEvent>)
    decreases |events|
  {
    events == [] || (!Crossed(s, events[0]) && NeverCrossed(SplitStep(s, events[0]), events[1..]))
  }

  // In every run of single commands and whole handlers the records stay sound and one per pair throughout
  // if and only if no insert finds the record of the other direction.
  lemma {:induction false} UniqueThroughoutIff(s: State, events: seq<SplitEvent>)
    requires Invariant(s.store) && Sane(s)
    ensures SoundThroughout(s, events) <==> NeverCrossed(s, events)
    decreases |events|
  {
    if events == [] {
    } else {
      StepKeepsIff(s, events[0]);
      if !Crossed(s, events[0]) {
        UniqueThroughoutIff(SplitStep(s, events[0]), events[1..]);
      }
    }
  }

  // Two creations that both found nothing, on any store: once the index has let both in, the records are still one
  // per pair exactly when they are not the two directions of one pair.
  lemma CrossedRequestsBreakUniquenessIff(s: Store, a: Relationship, b: Relationship, r: Id, q: Id)
    requires Invariant(s) && r !in s && q !in s && r != q && Sound(a) && Sound(b)
    requires NoneBetween(s, a.requester, a.recipient) && NoneBetween(s, b.requester, b.recipient)
    requires IndexAllows(s[r := a], b.requester, b.recipient)
    ensures Invariant(s[r := a][q := b]) <==> !(b.requester == a.recipient && b.recipient == a.requester)
  {
    var once := s[r := a];
    InsertKeepsIff(s, r, a);
    InsertKeepsIff(once, q, b);
    assert once[r] == a;
  }

  // ----- Whether a block takes effect -----

  predicate Concerns(e: SplitEvent, op: Id) {
    !e.Whole? && e.op == op
  }

  lemma OthersLeaveHandler(s: State, e: SplitEvent, op: Id)
    requires op in s.handlers && !Concerns(e, op)
    ensures op in SplitStep(s, e).handlers && SplitStep(s, e).handlers[op] == s.handlers[op]
  {
  }

  lemma {:induction false} OthersLeaveHandlerOverRuns(s: State, events: seq<SplitEvent>, op: Id)
    requires op in s.handlers && (forall e | e in events :: !Concerns(e, op))
    ensures op in SplitRun(s, events).handlers && SplitRun(s, events).handlers[op] == s.handlers[op]
    decreases |events|
  {
    if events == [] {
    } else {
      assert events[0] in events;
      OthersLeaveHandler(s, events[0], op);
      OthersLeaveHandlerOverRuns(SplitStep(s, events[0]), events[1..], op);
    }
  }

  lemma OthersDoNotTakeHandlerUp(s: State, e: SplitEvent, op: Id)
    requires op !in s.handlers && !Concerns(e, op)
    ensures op !in SplitStep(s, e).handlers
  {
  }

  lemma {:induction false} OthersDoNotTakeHandlerUpOverRuns(s: State, events: seq<SplitEvent>, op: Id)
    requires op !in s.handlers && (forall e | e in events :: !Concerns(e, op))
    ensures op !in SplitRun(s, events).handlers
    decreases |events|
  {
    if events == [] {
    } else {
      assert events[0] in events;
      OthersDoNotTakeHandlerUp(s, events[0], op);
      OthersDoNotTakeHandlerUpOverRuns(SplitStep(s, events[0]), events[1..], op);
    }
  }

  // A block that found nothing at first: whatever others do before its last command, that command puts the target
  // under the block exactly if the second look-up found nothing either and the index lets the record in.
  lemma BlockTakesEffectIff(s: State, op: Id, found: Option<Id>, others: seq<SplitEvent>, r: Id)
    requires op in s.handlers && s.handlers[op].Blocking?
    requires Finds(s.store, s.handlers[op].user, s.handlers[op].target, found)
    requires forall e | e in others :: !Concerns(e, op)
    requires r !in SplitRun(StepLookUpAgain(s, op, found), others).used
    requires var before := SplitRun(StepLookUpAgain(s, op, found), others);
      !BlockedByUser(before.store, s.handlers[op].user, s.handlers[op].target)
    ensures var Blocking(user, target) := s.handlers[op];
      var before := SplitRun(StepLookUpAgain(s, op, found), others);
      var after := StepAccept(StepInsert(before, op, r), op);
      BlockedByUser(after.store, user, target) <==> found.None? && IndexAllows(before.store, user, target)
  {
    var Blocking(user, target) := s.handlers[op];
    var looked := StepLookUpAgain(s, op, found);
    var before := SplitRun(looked, others);
    if op in looked.handlers {
      OthersLeaveHandlerOverRuns(looked, others, op);
    } else {
      OthersDoNotTakeHandlerUpOverRuns(looked, others, op);
    }
    if found.None? && IndexAllows(before.store, user, target) {
      var after := StepInsert(before, op, r);
      assert after.store[r].Between(user, target);
    } else {
      InsertOrAcceptBlocksNobody(before, op, r, user, target);
    }
  }

  lemma InsertOrAcceptBlocksNobody(s: State, op: Id, r: Id, user: Id, target: Id)
    requires !BlockedByUser(s.store, user, target)
    requires op in s.handlers ==> s.handlers[op].Accepting?
                                  || (s.handlers[op].Inserting?
                                      && !IndexAllows(s.store, s.handlers[op].user, s.handlers[op].target))
    ensures !BlockedByUser(StepAccept(StepInsert(s, op, r), op).store, user, target)
  {
    var after := StepAccept(StepInsert(s, op, r), op);
    forall q | q in after.store
      ensures !(after.store[q].Between(user, target) && after.store[q].status.Blocked?
                && after.store[q].blockedBy == Some(user))
    {
      assert q in s.store;
    }
  }

  // The target's friend request lands between the two look-ups: the block accepts it.
  lemma BlockTurnsIntoFriendship(s: State, op: Id, user: Id, target: Id, r: Id)
    requires Invariant(s.store) && Sane(s) && op !in s.handlers && r !in s.used
    requires user != target && NoneBetween(s.store, user, target)
    ensures var looked := StepLookUpBlock(s, op, user, target, None);
      var requested := StepWhole(looked, RequestEvent(r, target, user, true, None));
      var after := StepAccept(StepLookUpAgain(requested, op, Some(r)), op);
      && after.store == s.store[r := Relationship(target, user, Accepted, None)]
      && CheckIsFriend(after.store, user, target) && !CheckIsBlocked(after.store, user, target)
  {
    var looked := StepLookUpBlock(s, op, user, target, None);
    var requested := StepWhole(looked, RequestEvent(r, target, user, true, None));
    assert requested.store == s.store[r := Relationship(target, user, Pending, None)];
    var again := StepLookUpAgain(requested, op, Some(r));
    assert again.handlers[op] == Accepting(user, target, r);
    var after := StepAccept(again, op);
    assert after.store == s.store[r := Relationship(target, user, Accepted, None)];
    assert after.store[r].Between(user, target);
  }

  // ----- Whether a block lasts -----

  predicate IsBlockOf(s: Store, r: Id, user: Id, target: Id) {
    r in s && s[r].Between(user, target) && s[r].status.Blocked? && s[r].blockedBy == Some(user)
  }

  // Somebody else who found the record before it was a block writes his own block over it, and it was the only one.
  predicate TakesOver(s: State, e: SplitEvent, user: Id, target: Id) {
    && e.Overwrite? && e.op in s.handlers && s.handlers[e.op].Overwriting? && s.handlers[e.op].user != user
    && IsBlockOf(s.store, s.handlers[e.op].r, user, target)
    && (forall q | q in s.store && IsBlockOf(s.store, q, user, target) :: q == s.handlers[e.op].r)
  }

  predicate Unblocks(e: SplitEvent, user: Id, target: Id) {
    e.Whole? && e.event.UnblockEvent? && e.event.user == user && e.event.target == target
  }

  lemma BlockStays(before: Store, after: Store, r: Id, user: Id, target: Id)
    requires IsBlockOf(before, r, user, target) && r in after && after[r] == before[r]
    ensures BlockedByUser(after, user, target)
  {
    assert after[r].Between(user, target);
  }

  lemma WholeKeepsBlock(s: State, e: Event, user: Id, target: Id)
    requires BlockedByUser(s.store, user, target) && s.store.Keys <= s.used
    requires !(e.UnblockEvent? && e.user == user && e.target == target)
    ensures BlockedByUser(StepWhole(s, e).store, user, target)
  {
    var r :| r in s.store && s.store[r].Between(user, target) && s.store[r].status.Blocked?
             && s.store[r].blockedBy == Some(user);
    assert r in s.used;
    var t := StepWhole(s, e);
    assert r in t.store && t.store[r] == s.store[r];
    BlockStays(s.store, t.store, r, user, target);
  }

  lemma OverwriteKeepsBlockIff(s: State, op: Id, user: Id, target: Id)
    requires BlockedByUser(s.store, user, target) && Sane(s)
    ensures BlockedByUser(StepOverwrite(s, op).store, user, target) <==> !TakesOver(s, Overwrite(op), user, target)
  {
    if op in s.handlers && s.handlers[op].Overwriting? && s.handlers[op].r in s.store {
      var t, r := StepOverwrite(s, op), s.handlers[op].r;
      if TakesOver(s, Overwrite(op), user, target) {
        forall q | q in t.store
          ensures !IsBlockOf(t.store, q, user, target)
        {
          assert q != r ==> t.store[q] == s.store[q];
        }
      } else {
        assert exists q :: q in s.store && IsBlockOf(s.store, q, user, target);
        var q :| q in s.store && IsBlockOf(s.store, q, user, target) && (q != r || s.handlers[op].user == user);
        assert t.store[q].Between(user, target);
        assert IsBlockOf(t.store, q, user, target);
      }
    }
  }

  lemma StepKeepsBlockIff(s: State, e: SplitEvent, user: Id, target: Id)
    requires BlockedByUser(s.store, user, target) && Sane(s) && !Unblocks(e, user, target)
    ensures BlockedByUser(SplitStep(s, e).store, user, target) <==> !TakesOver(s, e, user, target)
  {
    var r :| r in s.store && s.store[r].Between(user, target) && s.store[r].status.Blocked?
             && s.store[r].blockedBy == Some(user);
    assert r in s.used;
    match e
    case LookUpRequest(_, _, _, _) =>
    case LookUpBlock(_, _, _, _) =>
    case LookUpAgain(_, _) =>
    case Insert(op, q) => BlockStays(s.store, StepInsert(s, op, q).store, r, user, target);
    case AcceptFound(op) => BlockStays(s.store, StepAccept(s, op).store, r, user, target);
    case Overwrite(op) => OverwriteKeepsBlockIff(s, op, user, target);
    case Whole(event) => WholeKeepsBlock(s, event, user, target);
  }

  predicate HoldsThroughout(s: State, events: seq<SplitEvent>, user: Id, target: Id)
    decreases |events|
  {
    && BlockedByUser(s.store, user, target)
    && (events == [] || HoldsThroughout(SplitStep(s, events[0]), events[1..], user, target))
  }

  predicate NeverTakenOver(s: State, events: seq<SplitEvent>, user: Id, target: Id)
    decreases |events|
  {
    || events == []
    || (!TakesOver(s, events[0], user, target) && NeverTakenOver(SplitStep(s, events[0]), events[1..], user, target))
  }

  // Until its author lifts it a block holds throughout a run of single commands and whole handlers if and only if
  // nobody who found the record before it was a block writes over it.
  lemma {:induction false} BlockHoldsThroughoutIff(s: State, events: seq<SplitEvent>, user: Id, target: Id)
    requires BlockedByUser(s.store, user, target) && Sane(s)
    requires forall e | e in events :: !Unblocks(e, user, target)
    ensures HoldsThroughout(s, events, user, target) <==> NeverTakenOver(s, events, user, target)
    decreases |events|
  {
    if events == [] {
    } else {
      assert events[0] in events;
      StepKeepsBlockIff(s, events[0], user, target);
      StepStaysSane(s, events[0]);
      if !TakesOver(s, events[0], user, target) {
        BlockHoldsThroughoutIff(SplitStep(s, events[0]), events[1..], user, target);
      }
    }
  }

  // Two users found the same record: the later block keeps the first exactly if it is by the same user. Otherwise
  // the second one's unblock leaves neither blocked.
  lemma CrossedBlocksKeepTheFirstIff(s: State, a: Id, b: Id, found: Id)
    requires Invariant(s.store) && Sane(s) && a != b && a in s.handlers && b in s.handlers && found in s.store
    requires s.handlers[a].Overwriting? && s.handlers[a].r == found
    requires s.handlers[b].Overwriting? && s.handlers[b].r == found
    ensures var h, i := s.handlers[a], s.handlers[b];
      var both := StepOverwrite(StepOverwrite(s, a), b);
      && (BlockedByUser(both.store, h.user, h.target) <==> h.user == i.user)
      && Finds(both.store, i.user, i.target, Some(found))
      && !CheckIsBlocked(Step(both.store, UnblockEvent(i.user, i.target, true, Some(found))), h.user, h.target)
  {
    var h, i := s.handlers[a], s.handlers[b];
    assert SaneHandler(s, h) && SaneHandler(s, i);
    var record := s.store[found];
    var both := StepOverwrite(StepOverwrite(s, a), b);
    assert both.store == s.store[found := record.(status := Blocked, blockedBy := Some(i.user))];
    assert IsBlockOf(both.store, found, i.user, i.target);
    forall q | q in s.store && q != found
      ensures !s.store[q].Between(h.user, h.target)
    {
      assert !s.store[q].Between(record.requester, record.recipient);
    }
  }
}
