// What the relationship records mean for two users, and that every handler moves the tie between its two users as a
// table of six moves says, and no other tie (src/modules/relationships/relationship-request.service.ts:40-284,
// relationship-block.service.ts:26-118).
module Ties {
  import opened Common
  import R = Relationships

  datatype Tie = Strangers | AskedBy(user: Id) | Friends | BlockedBy(user: Id)

  function TieOfRecord(r: R.Relationship): Tie {
    match r.status
    case Pending => AskedBy(r.requester)
    case Accepted => Friends
    case Blocked => BlockedBy(if r.blockedBy.Some? then r.blockedBy.value else r.requester)
  }

  ghost function TieOf(s: R.Store, a: Id, b: Id): Tie {
    if exists r :: r in s && s[r].Between(a, b)
    then
      var r :| r in s && s[r].Between(a, b);
      TieOfRecord(s[r])
    else Strangers
  }

  // The six moves a user can make towards a target.
  datatype Move = Request | Accept | Withdraw | Unfriend | Block | Unblock

  datatype Moved = To(tie: Tie) | Refused(why: R.Error)

  function MoveTie(tie: Tie, move: Move, user: Id, target: Id): Moved {
    match (move, tie)
    case (Request, Strangers) => To(AskedBy(user))
    case (Request, AskedBy(who)) => if who == user then Refused(R.AlreadySent) else To(Friends)
    case (Request, Friends) => Refused(R.AlreadyAccepted)
    case (Request, BlockedBy(_)) => Refused(R.AlreadyBlocked)
    case (Accept, AskedBy(who)) => if who == target then To(Friends) else Refused(R.NotFound)
    case (Accept, _) => Refused(R.NotFound)
    case (Withdraw, AskedBy(_)) => To(Strangers)
    case (Withdraw, _) => Refused(R.NotFound)
    case (Unfriend, Friends) => To(Strangers)
    case (Unfriend, _) => Refused(R.NotFound)
    case (Block, BlockedBy(who)) => Refused(if who == user then R.AlreadyBlocked else R.CannotBlock)
    case (Block, _) => To(BlockedBy(user))
    case (Unblock, BlockedBy(who)) => if who == user then To(Strangers) else Refused(R.UnblockFailed)
    case (Unblock, _) => Refused(R.UnblockFailed)
  }

  function MoveOf(e: R.Event): Move {
    match e
    case RequestEvent(_, _, _, _, _) => Request
    case AcceptEvent(_, _, _, _) => Accept
    case DeleteEvent(_, _, _, status, _) => if status.Accepted? then Unfriend else Withdraw
    case BlockEvent(_, _, _, _, _) => Block
    case UnblockEvent(_, _, _, _) => Unblock
  }

  // Whether an accepting or deleting request names the record of its two users.
  predicate NamesTheRecord(s: R.Store, e: R.Event) {
    (e.AcceptEvent? || e.DeleteEvent?) ==> e.r in s && s[e.r].Between(e.user, e.target)
  }

  lemma TieOfStored(s: R.Store, r: Id, a: Id, b: Id)
    requires R.Invariant(s) && r in s && s[r].Between(a, b)
    ensures TieOf(s, a, b) == TieOfRecord(s[r])
  {
    forall q | q in s && s[q].Between(a, b)
      ensures q == r
    {
      assert s[q].Between(s[r].requester, s[r].recipient);
    }
  }

  lemma NoTie(s: R.Store, a: Id, b: Id)
    requires forall r | r in s :: !s[r].Between(a, b)
    ensures TieOf(s, a, b) == Strangers
  {
  }

  lemma TieIsMutual(s: R.Store, a: Id, b: Id)
    requires R.Invariant(s)
    ensures TieOf(s, a, b) == TieOf(s, b, a)
  {
    if exists r :: r in s && s[r].Between(a, b) {
      var r :| r in s && s[r].Between(a, b);
      TieOfStored(s, r, a, b);
      TieOfStored(s, r, b, a);
    } else {
      assert forall r | r in s :: !s[r].Between(b, a);
    }
  }

  predicate SamePair(a: Id, b: Id, c: Id, d: Id) {
    (a == c && b == d) || (a == d && b == c)
  }

  // A tie stays when no record between the two changes.
  lemma TieStays(s: R.Store, t: R.Store, a: Id, b: Id)
    requires R.Invariant(s) && R.Invariant(t)
    requires forall r | r in s && s[r].Between(a, b) :: r in t && t[r] == s[r]
    requires forall r | r in t && t[r].Between(a, b) :: r in s && s[r] == t[r]
    ensures TieOf(t, a, b) == TieOf(s, a, b)
  {
    if exists r :: r in s && s[r].Between(a, b) {
      var r :| r in s && s[r].Between(a, b);
      TieOfStored(s, r, a, b);
      TieOfStored(t, r, a, b);
    } else {
      NoTie(t, a, b);
    }
  }

  // One record between the two users is written or removed.
  lemma TieWritten(s: R.Store, r: Id, record: R.Relationship, a: Id, b: Id)
    requires R.Invariant(s[r := record]) && record.Between(a, b)
    ensures TieOf(s[r := record], a, b) == TieOfRecord(record)
  {
    assert s[r := record][r].Between(a, b);
    TieOfStored(s[r := record], r, a, b);
  }

  lemma TieRemoved(s: R.Store, r: Id, a: Id, b: Id)
    requires R.Invariant(s) && r in s && s[r].Between(a, b)
    ensures TieOf(s - {r}, a, b) == Strangers
  {
    forall q | q in s - {r}
      ensures !(s - {r})[q].Between(a, b)
    {
      assert !s[q].Between(s[r].requester, s[r].recipient);
    }
    NoTie(s - {r}, a, b);
  }

  // The tie the handler finds.
  lemma TieFound(s: R.Store, a: Id, b: Id, found: Option<Id>)
    requires R.Invariant(s) && R.Finds(s, a, b, found)
    ensures TieOf(s, a, b) == if found.Some? then TieOfRecord(s[found.value]) else Strangers
  {
    if found.Some? {
      TieOfStored(s, found.value, a, b);
    } else {
      NoTie(s, a, b);
    }
  }

  // What the answer of a handler has to be, by the table.
  ghost predicate Follows(s: R.Store, e: R.Event)
    requires R.Plausible(s, e)
  {
    match MoveTie(TieOf(s, e.user, e.target), MoveOf(e), e.user, e.target)
    case To(tie) => R.Handle(s, e).Ok? && TieOf(R.Handle(s, e).value, e.user, e.target) == tie
    case Refused(why) => R.Handle(s, e) == R.Err(why)
  }

  lemma RequestFollows(s: R.Store, e: R.Event)
    requires R.Invariant(s) && R.Plausible(s, e) && e.usable && e.user != e.target
    requires e.RequestEvent? || e.BlockEvent? || e.UnblockEvent?
    ensures Follows(s, e)
  {
    TieFound(s, e.user, e.target, e.found);
    R.StepKeepsInvariant(s, e);
    if e.found.Some? {
      assert R.Sound(s[e.found.value]);
      match e {
        case UnblockEvent(_, _, _, found) => TieRemoved(s, found.value, e.user, e.target);
        case RequestEvent(_, _, _, _, found) =>
          if R.Handle(s, e).Ok? {
            TieWritten(s, found.value, s[found.value].(status := R.Accepted), e.user, e.target);
          }
        case BlockEvent(_, _, _, _, found) =>
          if R.Handle(s, e).Ok? {
            TieWritten(s, found.value, s[found.value].(status := R.Blocked, blockedBy := Some(e.user)),
                       e.user, e.target);
          }
      }
    } else if !e.UnblockEvent? {
      var status := if e.BlockEvent? then R.Blocked else R.Pending;
      var author := if e.BlockEvent? then Some(e.user) else None;
      TieWritten(s, e.r, R.Relationship(e.user, e.target, status, author), e.user, e.target);
    }
  }

  lemma NamedRecordFollows(s: R.Store, e: R.Event)
    requires R.Invariant(s) && R.Plausible(s, e) && e.usable && e.user != e.target
    requires (e.AcceptEvent? || e.DeleteEvent?) && NamesTheRecord(s, e)
    ensures Follows(s, e)
  {
    TieOfStored(s, e.r, e.user, e.target);
    R.StepKeepsInvariant(s, e);
    assert R.Sound(s[e.r]);
    if R.Handle(s, e).Ok? {
      if e.AcceptEvent? {
        TieWritten(s, e.r, s[e.r].(status := R.Accepted), e.user, e.target);
      } else {
        TieRemoved(s, e.r, e.user, e.target);
      }
    }
  }

  // Every handler answers as the table says and leaves every other tie alone; it refuses unusable users, and a
  // record that is not the one between its two users.
  lemma HandlersFollowTheTable(s: R.Store, e: R.Event, a: Id, b: Id)
    requires R.Invariant(s) && R.Plausible(s, e) && e.user != e.target
    ensures !e.usable ==> R.Handle(s, e) == R.Err(R.UsersNotUsable)
    ensures e.usable && !NamesTheRecord(s, e) ==> R.Handle(s, e) == R.Err(R.NotFound)
    ensures e.usable && NamesTheRecord(s, e) ==> Follows(s, e)
    ensures !SamePair(a, b, e.user, e.target) ==> TieOf(R.Step(s, e), a, b) == TieOf(s, a, b)
  {
    if e.usable && NamesTheRecord(s, e) {
      if e.AcceptEvent? || e.DeleteEvent? {
        NamedRecordFollows(s, e);
      } else {
        RequestFollows(s, e);
      }
    }
    if !SamePair(a, b, e.user, e.target) {
      R.StepKeepsInvariant(s, e);
      OtherRecordsStay(s, e, a, b);
      TieStays(s, R.Step(s, e), a, b);
    }
  }

  lemma OtherRecordsStay(s: R.Store, e: R.Event, a: Id, b: Id)
    requires R.Plausible(s, e) && !SamePair(a, b, e.user, e.target)
    ensures forall r | r in s && s[r].Between(a, b) :: r in R.Step(s, e) && R.Step(s, e)[r] == s[r]
    ensures forall r | r in R.Step(s, e) && R.Step(s, e)[r].Between(a, b) :: r in s && s[r] == R.Step(s, e)[r]
  {
    match e
    case RequestEvent(_, _, _, _, _) =>
    case AcceptEvent(_, _, _, _) =>
    case DeleteEvent(_, _, _, _, _) =>
    case BlockEvent(_, _, _, _, _) =>
    case UnblockEvent(_, _, _, _) =>
  }

  // ----- Runs -----

  // The moves of a run between these two that reached the table, applied to a tie.
  ghost function TieAfter(s: R.Store, events: seq<R.Event>, a: Id, b: Id, tie: Tie): Tie
    decreases |events|
  {
    if events == [] then tie
    else
      var e := events[0];
      var next := if R.Plausible(s, e) && e.usable && e.user != e.target && SamePair(a, b, e.user, e.target)
                     && NamesTheRecord(s, e)
                  then MoveTie(tie, MoveOf(e), e.user, e.target) else To(tie);
      TieAfter(R.Step(s, e), events[1..], a, b, if next.To? then next.tie else tie)
  }

  // Over any run of whole handlers the tie of two users is what their own moves make of it by the table, whatever
  // everybody else does.
  lemma {:induction false} TiesFollowTheTable(s: R.Store, events: seq<R.Event>, a: Id, b: Id)
    requires R.Invariant(s) && a != b
    ensures TieOf(R.Run(s, events), a, b) == TieAfter(s, events, a, b, TieOf(s, a, b))
    decreases |events|
  {
    if events == [] {
    } else {
      var e := events[0];
      R.StepKeepsInvariant(s, e);
      if R.Plausible(s, e) && e.user != e.target {
        HandlersFollowTheTable(s, e, a, b);
        TieIsMutual(s, a, b);
        TieIsMutual(R.Step(s, e), a, b);
      } else {
        SelfMovesDoNothing(s, e);
      }
      TiesFollowTheTable(R.Step(s, e), events[1..], a, b);
    }
  }

  lemma SelfMovesDoNothing(s: R.Store, e: R.Event)
    requires R.Invariant(s) && (R.Plausible(s, e) ==> e.user == e.target)
    ensures R.Step(s, e) == s
  {
    forall r | r in s
      ensures !s[r].Between(e.user, e.user)
    {
      assert R.Sound(s[r]);
    }
  }
}
