// The relationship handlers as code over the store: src/modules/relationships/relationship-request.service.ts:40-284
// and relationship-block.service.ts:26-118. `found` is the answer of the query for the record of a pair.
module RelationshipServices {
  import opened Common
  import opened Relationships

  class RelationshipService {
    var store: Store

    constructor ()
      ensures store == map[] && Valid()
    {
      store := map[];
    }

    ghost predicate Valid()
      reads this
    {
      Invariant(store)
    }

    // What a handler that answers `refusal` did to the store `before`.
    ghost predicate Did(before: Store, e: Event, refusal: Option<Error>)
      requires Plausible(before, e)
      reads this
    {
      && Valid()
      && (if refusal.None? then Handle(before, e) == Ok(store)
          else Handle(before, e) == Err(refusal.value) && store == before)
    }

    method AcceptRequest(r: Id, user: Id, target: Id, usable: bool) returns (refusal: Option<Error>)
      requires Valid()
      modifies this
      ensures Did(old(store), AcceptEvent(r, user, target, usable), refusal)
    {
      StepKeepsInvariant(store, AcceptEvent(r, user, target, usable));
      if !usable {
        return Some(UsersNotUsable);
      }
      if r !in store || store[r].status != Pending || store[r].recipient != user || store[r].requester != target {
        return Some(NotFound);
      }
      store := store[r := store[r].(status := Accepted)];
      refusal := None;
    }

    // create with status PENDING; an answering request accepts the one that is waiting.
    method CreateRequest(r: Id, user: Id, target: Id, usable: bool, found: Option<Id>) returns (refusal: Option<Error>)
      requires Valid() && Plausible(store, RequestEvent(r, user, target, usable, found))
      modifies this
      ensures Did(old(store), RequestEvent(r, user, target, usable, found), refusal)
    {
      StepKeepsInvariant(store, RequestEvent(r, user, target, usable, found));
      if !usable || user == target {
        return Some(UsersNotUsable);
      }
      if found.Some? {
        var relationship := store[found.value];
        if relationship.status == Accepted {
          return Some(AlreadyAccepted);
        }
        if relationship.status == Blocked {
          return Some(AlreadyBlocked);
        }
        if relationship.requester == user {
          return Some(AlreadySent);
        }
        refusal := AcceptRequest(found.value, user, target, usable);
        return;
      }
      store := store[r := Relationship(user, target, Pending, None)];
      refusal := None;
    }

    method DeleteRelationship(r: Id, user: Id, target: Id, status: Status, usable: bool)
      returns (refusal: Option<Error>)
      requires Valid() && status != Blocked
      modifies this
      ensures Did(old(store), DeleteEvent(r, user, target, status, usable), refusal)
    {
      StepKeepsInvariant(store, DeleteEvent(r, user, target, status, usable));
      if !usable {
        return Some(UsersNotUsable);
      }
      if r !in store || store[r].status != status || !store[r].Between(user, target) {
        return Some(NotFound);
      }
      store := store - {r};
      refusal := None;
    }

    method BlockUser(r: Id, user: Id, target: Id, usable: bool, found: Option<Id>) returns (refusal: Option<Error>)
      requires Valid() && Plausible(store, BlockEvent(r, user, target, usable, found))
      modifies this
      ensures Did(old(store), BlockEvent(r, user, target, usable, found), refusal)
      ensures refusal.None? ==> BlockedByUser(store, user, target)
    {
      StepKeepsInvariant(store, BlockEvent(r, user, target, usable, found));
      if !usable || user == target {
        return Some(UsersNotUsable);
      }
      if found.None? {
        store := store[r := Relationship(user, target, Blocked, Some(user))];
        assert store[r].Between(user, target);
        return None;
      }
      var relationship := store[found.value];
      if relationship.status == Blocked {
        if relationship.blockedBy == Some(user) {
          return Some(AlreadyBlocked);
        }
        return Some(CannotBlock);
      }
      store := store[found.value := relationship.(status := Blocked, blockedBy := Some(user))];
      assert store[found.value].Between(user, target);
      refusal := None;
    }

    method UnblockUser(user: Id, target: Id, usable: bool, found: Option<Id>) returns (refusal: Option<Error>)
      requires Valid() && Plausible(store, UnblockEvent(user, target, usable, found))
      modifies this
      ensures Did(old(store), UnblockEvent(user, target, usable, found), refusal)
      ensures refusal.None? ==> !CheckIsBlocked(store, user, target)
    {
      StepKeepsInvariant(store, UnblockEvent(user, target, usable, found));
      if !usable {
        return Some(UsersNotUsable);
      }
      if found.None? || store[found.value].status != Blocked || store[found.value].blockedBy != Some(user) {
        return Some(UnblockFailed);
      }
      var gone := store[found.value];
      assert forall q | q in store && q != found.value :: !store[q].Between(gone.requester, gone.recipient);
      store := store - {found.value};
      refusal := None;
    }
  }
}
