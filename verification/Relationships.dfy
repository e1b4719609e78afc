// Friend requests and blocks: src/modules/relationships/ (relationship-request, -block, -query .service.ts).
module Relationships {
  import opened Common

  datatype Status = Pending | Accepted | Blocked

  datatype Relationship = Relationship(requester: Id, recipient: Id, status: Status, blockedBy: Option<Id>)
  {
    predicate Between(a: Id, b: Id) {
      (requester == a && recipient == b) || (requester == b && recipient == a)
    }

    function Other(user: Id): Id {
      if requester == user then recipient else requester
    }
  }

  type Store = map<Id, Relationship>

  datatype Error =
    | UsersNotUsable | AlreadySent | AlreadyAccepted | AlreadyBlocked | CannotBlock | NotFound | UnblockFailed

  datatype Result<+T> = Ok(value: T) | Err(error: Error)

  // What `findOne` for the record between two users may return.
  predicate Finds(s: Store, a: Id, b: Id, found: Option<Id>) {
    if found.Some? then found.value in s && s[found.value].Between(a, b)
    else forall r | r in s :: !s[r].Between(a, b)
  }

  // `usable` is the outcome of the check that both users exist, are active and differ.
  function Create(s: Store, r: Id, user: Id, target: Id, usable: bool, found: Option<Id>): Result<Store>
    requires Finds(s, user, target, found)
  {
    if !usable || user == target then Err(UsersNotUsable)
    else if found.None? then Ok(s[r := Relationship(user, target, Pending, None)])
    else
      var relationship := s[found.value];
      if relationship.status.Accepted? then Err(AlreadyAccepted)
      else if relationship.status.Blocked? then Err(AlreadyBlocked)
      else if relationship.requester == user then Err(AlreadySent)
      else Accept(s, found.value, user, target, usable)   // the other side had asked already
  }

  function Accept(s: Store, r: Id, user: Id, target: Id, usable: bool): Result<Store> {
    if !usable then Err(UsersNotUsable)
    else if r !in s || !s[r].status.Pending? || s[r].recipient != user || s[r].requester != target then Err(NotFound)
    else Ok(s[r := s[r].(status := Accepted)])
  }

  // rejectOrRemove (a pending record) and unfriend (an accepted one)
  function DeleteOne(s: Store, r: Id, user: Id, target: Id, status: Status, usable: bool): Result<Store> {
    if !usable then Err(UsersNotUsable)
    else if r !in s || s[r].status != status || !s[r].Between(user, target) then Err(NotFound)
    else Ok(s - {r})
  }

  function Block(s: Store, r: Id, user: Id, target: Id, usable: bool, found: Option<Id>): Result<Store>
    requires Finds(s, user, target, found)
  {
    if !usable || user == target then Err(UsersNotUsable)
    else if found.None? then Ok(s[r := Relationship(user, target, Blocked, Some(user))])
    else if s[found.value].status.Blocked? then
      Err(if s[found.value].blockedBy == Some(user) then AlreadyBlocked else CannotBlock)
    else Ok(s[found.value := s[found.value].(status := Blocked, blockedBy := Some(user))])
  }

  function Unblock(s: Store, user: Id, target: Id, usable: bool, found: Option<Id>): Result<Store>
    requires Finds(s, user, target, found)
  {
    if !usable then Err(UsersNotUsable)
    else if found.None? || !s[found.value].status.Blocked? || s[found.value].blockedBy != Some(user)
    then Err(UnblockFailed)
    else Ok(s - {found.value})
  }

  // ----- Runs -----

  datatype Event =
    | RequestEvent(r: Id, user: Id, target: Id, usable: bool, found: Option<Id>)
    | AcceptEvent(r: Id, user: Id, target: Id, usable: bool)
    | DeleteEvent(r: Id, user: Id, target: Id, status: Status, usable: bool)   // status Pending or Accepted
    | BlockEvent(r: Id, user: Id, target: Id, usable: bool, found: Option<Id>)
    | UnblockEvent(user: Id, target: Id, usable: bool, found: Option<Id>)

  // New ids are new, and the query is answered truthfully.
  predicate Plausible(s: Store, e: Event) {
    && (e.RequestEvent? || e.BlockEvent? ==> e.r !in s)
    && (e.RequestEvent? || e.BlockEvent? || e.UnblockEvent? ==> Finds(s, e.user, e.target, e.found))
    && (e.DeleteEvent? ==> !e.status.Blocked?)
  }

  function Handle(s: Store, e: Event): Result<Store>
    requires Plausible(s, e)
  {
    match e
    case RequestEvent(r, user, target, usable, found) => Create(s, r, user, target, usable, found)
    case AcceptEvent(r, user, target, usable) => Accept(s, r, user, target, usable)
    case DeleteEvent(r, user, target, status, usable) => DeleteOne(s, r, user, target, status, usable)
    case BlockEvent(r, user, target, usable, found) => Block(s, r, user, target, usable, found)
    case UnblockEvent(user, target, usable, found) => Unblock(s, user, target, usable, found)
  }

  // Implausible events do not happen.
  function Step(s: Store, e: Event): Store {
    if Plausible(s, e) && Handle(s, e).Ok? then Handle(s, e).value else s
  }

  function Run(s: Store, events: seq<Event>): Store
    decreases |events|
  {
    if events == [] then s else Run(Step(s, events[0]), events[1..])
  }

  ghost predicate Sound(r: Relationship) {
    && r.requester != r.recipient
    && (r.blockedBy.Some? <==> r.status.Blocked?)
    && (r.blockedBy.Some? ==> r.blockedBy.value == r.requester || r.blockedBy.value == r.recipient)
  }

  // At most one record per unordered pair; blockedBy names one of the two exactly when the record is a block.
  ghost predicate Invariant(s: Store) {
    && (forall r | r in s :: Sound(s[r]))
    && (forall r, q | r in s && q in s && r != q :: !s[q].Between(s[r].requester, s[r].recipient))
  }

  lemma StepKeepsInvariant(s: Store, e: Event)
    requires Invariant(s)
    ensures Invariant(Step(s, e))
  {
    match e
    case RequestEvent(_, _, _, _, _) =>
    case AcceptEvent(_, _, _, _) =>
    case DeleteEvent(_, _, _, _, _) =>
    case BlockEvent(_, _, _, _, _) =>
    case UnblockEvent(_, _, _, _) =>
  }

  lemma {:induction false} RunKeepsInvariant(s: Store, events: seq<Event>)
    requires Invariant(s)
    ensures Invariant(Run(s, events))
    decreases |events|
  {
    if events == [] {
    } else {
      StepKeepsInvariant(s, events[0]);
      RunKeepsInvariant(Step(s, events[0]), events[1..]);
    }
  }

  lemma OneRecordPerPair(events: seq<Event>, r: Id, q: Id)
    requires var s := Run(map[], events);
      r in s && q in s && s[q].Between(s[r].requester, s[r].recipient)
    ensures r == q
    ensures Sound(Run(map[], events)[r])
  {
    RunKeepsInvariant(map[], events);
  }

  // ----- Only the one who blocked can lift the block -----

  predicate BlockedByUser(s: Store, user: Id, target: Id) {
    exists r | r in s :: s[r].Between(user, target) && s[r].status.Blocked? && s[r].blockedBy == Some(user)
  }

  lemma StepKeepsBlock(s: Store, e: Event, user: Id, target: Id)
    requires Invariant(s) && BlockedByUser(s, user, target)
    requires !(e.UnblockEvent? && e.user == user && e.target == target)
    ensures BlockedByUser(Step(s, e), user, target)
  {
    var r :| r in s && s[r].Between(user, target) && s[r].status.Blocked? && s[r].blockedBy == Some(user);
    assert r in Step(s, e) && Step(s, e)[r] == s[r];
  }

  // Whatever anyone else does, and whatever else the user does, the block holds until that user unblocks that target.
  lemma {:induction false} BlockHolds(s: Store, events: seq<Event>, user: Id, target: Id)
    requires Invariant(s) && BlockedByUser(s, user, target)
    requires forall e | e in events :: !(e.UnblockEvent? && e.user == user && e.target == target)
    ensures BlockedByUser(Run(s, events), user, target)
    decreases |events|
  {
    if events == [] {
    } else {
      assert events[0] in events;
      StepKeepsInvariant(s, events[0]);
      StepKeepsBlock(s, events[0], user, target);
      BlockHolds(Step(s, events[0]), events[1..], user, target);
    }
  }

  // ----- Queries -----

  predicate CheckStatus(s: Store, a: Id, b: Id, status: Status) {
    exists r | r in s :: s[r].Between(a, b) && s[r].status == status
  }

  predicate CheckIsBlocked(s: Store, a: Id, b: Id) {
    CheckStatus(s, a, b, Blocked)
  }

  predicate CheckIsFriend(s: Store, a: Id, b: Id) {
    CheckStatus(s, a, b, Accepted)
  }

  // A pair is never friends and blocked at once, so a batch of friends and a batch of blocked users are disjoint.
  lemma FriendsAreNotBlocked(s: Store, a: Id, b: Id)
    requires Invariant(s)
    ensures CheckIsFriend(s, a, b) ==> !CheckIsBlocked(s, a, b)
  {
    if CheckIsFriend(s, a, b) {
      var r :| r in s && s[r].Between(a, b) && s[r].status == Accepted;
      assert forall q | q in s && s[q].Between(a, b) :: s[q].Between(s[r].requester, s[r].recipient);
    }
  }

  // The records the batch query asks for: of this status, between the user and one of the targets.
  predicate Matches(r: Relationship, user: Id, targets: seq<Id>, status: Status) {
    r.status == status
    && ((r.requester == user && r.recipient in targets) || (r.recipient == user && r.requester in targets))
  }

  // The records a `find` returns: each match once, in any order.
  ghost predicate FindsAll(s: Store, user: Id, targets: seq<Id>, status: Status, found: seq<Id>) {
    && (forall i, j | 0 <= i < j < |found| :: found[i] != found[j])
    && (forall i | 0 <= i < |found| :: found[i] in s && Matches(s[found[i]], user, targets, status))
    && (forall r | r in s && Matches(s[r], user, targets, status) :: r in found)
  }

  function Others(s: Store, user: Id, found: seq<Id>): (ids: seq<Id>)
    requires forall i | 0 <= i < |found| :: found[i] in s
    ensures |ids| == |found|
    ensures forall i | 0 <= i < |found| :: ids[i] == s[found[i]].Other(user)
  {
    if found == [] then [] else Others(s, user, found[..|found| - 1]) + [s[found[|found| - 1]].Other(user)]
  }

  function WithoutUser(targets: seq<Id>, user: Id): (rest: seq<Id>)
    ensures forall t :: t in rest <==> t in targets && t != user
  {
    if targets == [] then []
    else if targets[0] == user then WithoutUser(targets[1..], user)
    else [targets[0]] + WithoutUser(targets[1..], user)
  }

  lemma BatchIsExact(s: Store, user: Id, targets: seq<Id>, status: Status, found: seq<Id>)
    requires Invariant(s) && FindsAll(s, user, targets, status, found)
    ensures var ids := Others(s, user, found);
      && (forall i, j | 0 <= i < j < |ids| :: ids[i] != ids[j])
      && (forall t :: t in ids <==> t in targets && CheckStatus(s, user, t, status))
  {
    var ids := Others(s, user, found);
    forall i, j | 0 <= i < j < |ids|
      ensures ids[i] != ids[j]
    {
      assert !s[found[j]].Between(s[found[i]].requester, s[found[i]].recipient);
    }
    forall t
      ensures t in ids <==> t in targets && CheckStatus(s, user, t, status)
    {
      if t in ids {
        var i :| 0 <= i < |ids| && ids[i] == t;
        assert s[found[i]].Between(user, t);
      }
      if t in targets && CheckStatus(s, user, t, status) {
        var r :| r in s && s[r].Between(user, t) && s[r].status == status;
        assert Sound(s[r]) && Matches(s[r], user, targets, status);
        var i :| 0 <= i < |found| && found[i] == r;
        assert ids[i] == t;
      }
    }
  }

  // getBlockedUserIdsAmongUsers returns, without duplicates, exactly the other targets for which checkIsBlocked holds.
  lemma BlockedBatchIsExact(s: Store, user: Id, targets: seq<Id>, found: seq<Id>)
    requires Invariant(s) && FindsAll(s, user, WithoutUser(targets, user), Blocked, found)
    ensures var ids := Others(s, user, found);
      && (forall i, j | 0 <= i < j < |ids| :: ids[i] != ids[j])
      && (forall t :: t in ids <==> t in targets && CheckIsBlocked(s, user, t))
  {
    BatchIsExact(s, user, WithoutUser(targets, user), Blocked, found);
    forall r | r in s
      ensures !s[r].Between(user, user)
    {
      assert Sound(s[r]);
    }
  }

  // getFriendIdsAmongUsers does the same for checkIsFriend.
  lemma FriendBatchIsExact(s: Store, user: Id, targets: seq<Id>, found: seq<Id>)
    requires Invariant(s) && FindsAll(s, user, targets, Accepted, found)
    ensures var ids := Others(s, user, found);
      && (forall i, j | 0 <= i < j < |ids| :: ids[i] != ids[j])
      && (forall t :: t in ids <==> t in targets && CheckIsFriend(s, user, t))
  {
    BatchIsExact(s, user, targets, Accepted, found);
  }
}
