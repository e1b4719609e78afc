// Conversation handlers that cross: two of them pass their checks on the same conversation, and then both commit,
// one after the other (src/modules/conversations/conversation-member.service.ts:64-324,
// conversation-group-admin.service.ts:74-260, conversation-state.service.ts:154-253,
// conversation-command.service.ts:52-303, src/modules/messages/message-pin.service.ts:39-79).
// Exactly when does the invariant survive?
module CrossedHandlers {
  import opened Common
  import opened Conversations
  import opened ConversationInvariants
  import opened Sequences
  import H = HandlerCommits

  // ----- Handing over a group while a member is removed or leaves -----

  // The new admin is removed, by himself or by the old admin, or he is not: that alone decides, in either order.
  lemma HandOverCrossesRemovalIff(s: State, c: Id, me: Id, newAdmin: Id, who: Id, member: Id, m: Id, n: Id)
    requires Invariant(s) && s.newest < m < n
    requires ChangeAdmin(s, c, me, newAdmin, true, false, m).Ok? && RemoveMember(s, c, who, member, n).Ok?
    ensures var both := CommitRemove(CommitAdmin(s, c, me, newAdmin, m), c, who, member, n);
      && (SoundMembers(both.conversations[c]) <==> newAdmin != member)
      && (Invariant(both) <==> newAdmin != member)
  {
    var handed := CommitAdmin(s, c, me, newAdmin, m);
    CommitAdminKeeps(s, c, me, newAdmin, m);
    WithoutFacts(handed.conversations[c].users, member);
    if newAdmin != member {
      CommitRemoveKeeps(handed, c, who, member, n);
    }
  }

  lemma RemovalCrossesHandOverIff(s: State, c: Id, me: Id, newAdmin: Id, who: Id, member: Id, m: Id, n: Id)
    requires Invariant(s) && s.newest < n < m
    requires ChangeAdmin(s, c, me, newAdmin, true, false, m).Ok? && RemoveMember(s, c, who, member, n).Ok?
    ensures var both := CommitAdmin(CommitRemove(s, c, who, member, n), c, me, newAdmin, m);
      && (SoundMembers(both.conversations[c]) <==> newAdmin != member)
      && (Invariant(both) <==> newAdmin != member)
  {
    assert SoundMembers(s.conversations[c]);
    var removed := CommitRemove(s, c, who, member, n);
    CommitRemoveKeeps(s, c, who, member, n);
    WithoutFacts(s.conversations[c].users, member);
    if newAdmin != member {
      CommitAdminKeeps(removed, c, me, newAdmin, m);
    }
  }

  // ----- Two additions -----

  predicate Share(first: seq<Id>, second: seq<Id>) {
    exists u | u in first :: u in second
  }

  // Those of the second addition whom the first has not brought already.
  function Newcomers(first: seq<Id>, second: seq<Id>): seq<Id> {
    Keep(second, (set u | u in second) - (set u | u in first))
  }

  lemma {:induction false} KeepAgrees(ids: seq<Id>, a: set<Id>, b: set<Id>)
    requires forall u | u in ids :: u in a <==> u in b
    ensures Keep(ids, a) == Keep(ids, b)
  {
    if ids == [] {
    } else {
      assert ids[|ids| - 1] in ids;
      KeepAgrees(ids[..|ids| - 1], a, b);
    }
  }

  // The second addition lets in exactly the newcomers.
  lemma SecondAdditionLetsIn(users: seq<Id>, first: seq<Id>, second: seq<Id>)
    requires forall u | u in second :: u !in users
    ensures Keep(second, (set u | u in second) - (set u | u in users + first)) == Newcomers(first, second)
    ensures !Share(first, second) ==> Newcomers(first, second) == second
  {
    KeepAgrees(second, (set u | u in second) - (set u | u in users + first),
               (set u | u in second) - (set u | u in first));
    if !Share(first, second) {
      KeepAll(second, (set u | u in second) - (set u | u in first));
    }
  }

  function UsersOf(entries: seq<Hidden>): (users: seq<Id>)
    ensures |users| == |entries| && forall i | 0 <= i < |entries| :: users[i] == entries[i].user
  {
    if entries == [] then [] else UsersOf(entries[..|entries| - 1]) + [entries[|entries| - 1].user]
  }

  lemma DistinctAppend(first: seq<Id>, second: seq<Id>)
    ensures Distinct(first + second) <==> Distinct(first) && Distinct(second) && !Share(first, second)
  {
    var both, n := first + second, |first|;
    if Share(first, second) {
      var u :| u in first && u in second;
      var i :| 0 <= i < n && first[i] == u;
      var j :| 0 <= j < |second| && second[j] == u;
      assert both[i] == both[n + j];
    } else {
      forall i, j | 0 <= i < n <= j < |both|
        ensures both[i] != both[j]
      {
        assert both[i] in first && both[j] == second[j - n] && second[j - n] in second;
      }
      if Distinct(both) {
        assert forall i | 0 <= i < n :: both[i] == first[i];
        forall i, j | 0 <= i < j < |second|
          ensures second[i] != second[j]
        {
          assert both[n + i] == second[i] && both[n + j] == second[j];
        }
      }
    }
  }

  lemma EntriesByUser(entries: seq<Hidden>, valid: seq<Id>, now: Instant)
    ensures UsersOf(Restored(entries + NewEntries(valid, false, now))) == UsersOf(entries) + valid
  {
    NewEntriesFacts(valid, false, now);
    RestoredFacts(entries + NewEntries(valid, false, now));
  }

  // Both push their history entries, so the entries stay one each exactly when the additions share nobody.
  lemma EntriesOfBothIff(entries: seq<Hidden>, users: seq<Id>, first: seq<Id>, second: seq<Id>,
                         now: Instant, later: Instant)
    requires OneEntryEach(entries) && EntriesOf(entries, users) && Distinct(first) && Distinct(second)
    requires (forall u | u in first :: u !in users) && (forall u | u in second :: u !in users)
    ensures var once := Restored(entries + NewEntries(first, false, now));
      OneEntryEach(Restored(once + NewEntries(second, false, later))) <==> !Share(first, second)
  {
    var once := Restored(entries + NewEntries(first, false, now));
    var both := Restored(once + NewEntries(second, false, later));
    EntriesByUser(entries, first, now);
    EntriesByUser(once, second, later);
    OneEntryEachByUser(entries);
    OneEntryEachByUser(both);
    assert forall u | u in UsersOf(entries) :: u in users;
    DistinctAppend(UsersOf(entries), first);
    DistinctAppend(UsersOf(entries) + first, second);
  }

  lemma OneEntryEachByUser(entries: seq<Hidden>)
    ensures OneEntryEach(entries) <==> Distinct(UsersOf(entries))
  {
  }

  // The group keeps to the limit exactly when the members, the first addition and the newcomers of the second do;
  // entries stay one each exactly when the additions share nobody; and the whole invariant survives exactly when
  // they share nobody and there is room for all.
  lemma CrossedAdditionsIff(s: State, c: Id, me: Id, first: seq<Id>, second: seq<Id>, eligible1: set<Id>,
                            eligible2: set<Id>, m: Id, n: Id, now: Instant, later: Instant)
    requires Invariant(s) && s.newest < m < n
    requires AddMembers(s, c, me, first, eligible1, m, now).Ok? && AddMembers(s, c, me, second, eligible2, n, later).Ok?
    ensures var users := s.conversations[c].users;
      var valid1 := ValidMembers(s.conversations[c], first, eligible1);
      var valid2 := ValidMembers(s.conversations[c], second, eligible2);
      var both := CommitAdd(CommitAdd(s, c, me, valid1, m, now), c, me, valid2, n, later);
      && (|both.conversations[c].users| <= MAX_GROUP_MEMBERS
          <==> |users| + |valid1| + |Newcomers(valid1, valid2)| <= MAX_GROUP_MEMBERS)
      && (OneEntryEach(both.conversations[c].hiddenHistory) <==> !Share(valid1, valid2))
      && (Invariant(both) <==> !Share(valid1, valid2) && |users| + |valid1| + |valid2| <= MAX_GROUP_MEMBERS)
  {
    var conversation := s.conversations[c];
    var users := conversation.users;
    assert SoundMembers(conversation);
    var valid1, valid2 := ValidMembers(conversation, first, eligible1), ValidMembers(conversation, second, eligible2);
    ValidMembersJoin(conversation, first, eligible1);
    ValidMembersJoin(conversation, second, eligible2);
    ValidMembersAreDistinct(conversation, first, eligible1);
    ValidMembersAreDistinct(conversation, second, eligible2);
    SecondAdditionLetsIn(users, valid1, valid2);
    EntriesOfBothIff(conversation.hiddenHistory, users, valid1, valid2, now, later);
    var once := CommitAdd(s, c, me, valid1, m, now);
    assert once.conversations[c].users == users + valid1;
    CommitAddKeeps(s, c, me, valid1, m, now);
    if !Share(valid1, valid2) && |users| + |valid1| + |valid2| <= MAX_GROUP_MEMBERS {
      CommitAddKeeps(once, c, me, valid2, n, later);
    } else {
      assert !SoundMembers(CommitAdd(once, c, me, valid2, n, later).conversations[c]);
    }
  }

  // ----- Pinning a message while it is deleted -----

  function DeleteOf(s: State, c: Id, m: Id): H.Commit
    requires c in s.conversations
  {
    H.DeleteCommit(c, m, s.conversations[c].pin == Some(m))
  }

  // A pin that commits first survives the deletion exactly if the messages differ, or it was there when the deletion
  // looked and so is cleared again.
  lemma PinCrossesDeleteIff(s: State, c: Id, pinned: Id, deleted: Id, pinner: Id, sender: Id)
    requires Invariant(s) && Pin(s, c, pinned, pinner).Ok? && SoftDelete(s, c, deleted, sender).Ok?
    ensures Invariant(H.Apply(H.Apply(s, H.PinCommit(c, pinned), 0, 0), DeleteOf(s, c, deleted), 0, 0))
      <==> pinned != deleted || s.conversations[c].pin == Some(deleted)
  {
    H.CommitKeepsIff(s, H.PinCommit(c, pinned), 0, 0);
    H.CommitKeepsIff(H.Apply(s, H.PinCommit(c, pinned), 0, 0), DeleteOf(s, c, deleted), 0, 0);
  }

  // A pin that commits last, exactly if they differ.
  lemma DeleteCrossesPinIff(s: State, c: Id, pinned: Id, deleted: Id, pinner: Id, sender: Id)
    requires Invariant(s) && Pin(s, c, pinned, pinner).Ok? && SoftDelete(s, c, deleted, sender).Ok?
    ensures Invariant(H.Apply(H.Apply(s, DeleteOf(s, c, deleted), 0, 0), H.PinCommit(c, pinned), 0, 0))
      <==> pinned != deleted
  {
    var gone := H.Apply(s, DeleteOf(s, c, deleted), 0, 0);
    DeletionMarks(s, c, deleted, sender);
    assert H.Sane(gone, H.PinCommit(c, pinned));
    H.CommitKeepsIff(gone, H.PinCommit(c, pinned), 0, 0);
  }

  lemma DeletionMarks(s: State, c: Id, deleted: Id, sender: Id)
    requires Invariant(s) && SoftDelete(s, c, deleted, sender).Ok?
    ensures var gone := H.Apply(s, DeleteOf(s, c, deleted), 0, 0);
      && Invariant(gone) && c in gone.conversations
      && gone.messages == s.messages[deleted := s.messages[deleted].(isDeleted := true)]
  {
    H.CommitKeepsIff(s, DeleteOf(s, c, deleted), 0, 0);
  }

  // ----- Hiding or accepting a group while its member is removed -----

  function HideOf(s: State, c: Id, user: Id): H.Commit
    requires c in s.conversations
  {
    H.HideCommit(c, user, HasEntry(s.conversations[c].hiddenHistory, user), false)
  }

  // What a removal leaves.
  lemma RemovalLeaves(s: State, c: Id, who: Id, member: Id, m: Id, now: Instant)
    requires Invariant(s) && s.newest < m && RemoveMember(s, c, who, member, m).Ok?
    ensures var removed := H.Apply(s, H.RemoveCommit(c, who, member), m, now);
      && Invariant(removed) && c in removed.conversations && removed.newest == m
      && (forall u :: u in removed.conversations[c].users <==> u in s.conversations[c].users && u != member)
      && (forall u | HasEntry(removed.conversations[c].hiddenHistory, u) :: u in removed.conversations[c].users)
  {
    H.CommitKeepsIff(s, H.RemoveCommit(c, who, member), m, now);
    var removed := H.Apply(s, H.RemoveCommit(c, who, member), m, now);
    WithoutFacts(s.conversations[c].users, member);
    assert removed.conversations[c].users == Without(s.conversations[c].users, member);
    assert SoundMembers(removed.conversations[c]);
  }

  // The history entry of a removed member comes back exactly if the one who hides is the one removed and had no
  // entry when the handler looked.
  lemma HideCrossesRemovalIff(s: State, c: Id, user: Id, isFriend: bool, who: Id, member: Id, m: Id, now: Instant)
    requires Invariant(s) && s.newest < m
    requires Hide(s, c, user, isFriend, now).Ok? && RemoveMember(s, c, who, member, m).Ok?
    ensures Invariant(H.Apply(H.Apply(s, H.RemoveCommit(c, who, member), m, now), HideOf(s, c, user), 0, now))
      <==> user != member || HasEntry(s.conversations[c].hiddenHistory, user)
  {
    RemovalLeaves(s, c, who, member, m, now);
    H.CommitKeepsIff(H.Apply(s, H.RemoveCommit(c, who, member), m, now), HideOf(s, c, user), 0, now);
  }

  // A removal that commits last always cleans up.
  lemma RemovalAfterHideKeeps(s: State, c: Id, user: Id, isFriend: bool, who: Id, member: Id, m: Id, now: Instant)
    requires Invariant(s) && s.newest < m
    requires Hide(s, c, user, isFriend, now).Ok? && RemoveMember(s, c, who, member, m).Ok?
    ensures Invariant(H.Apply(H.Apply(s, HideOf(s, c, user), 0, now), H.RemoveCommit(c, who, member), m, now))
  {
    H.CommitKeepsIff(s, HideOf(s, c, user), 0, now);
    H.CommitKeepsIff(H.Apply(s, HideOf(s, c, user), 0, now), H.RemoveCommit(c, who, member), m, now);
  }

  lemma AcceptCrossesRemovalIff(s: State, c: Id, user: Id, who: Id, member: Id, m: Id)
    requires Invariant(s) && s.newest < m
    requires Accept(s, c, user).Ok? && user !in s.conversations[c].acceptedBy && RemoveMember(s, c, who, member, m).Ok?
    ensures Invariant(H.Apply(H.Apply(s, H.RemoveCommit(c, who, member), m, 0), H.AcceptCommit(c, user), 0, 0))
      <==> user != member
  {
    RemovalLeaves(s, c, who, member, m, 0);
    H.CommitKeepsIff(H.Apply(s, H.RemoveCommit(c, who, member), m, 0), H.AcceptCommit(c, user), 0, 0);
  }

  lemma RemovalAfterAcceptKeeps(s: State, c: Id, user: Id, who: Id, member: Id, m: Id)
    requires Invariant(s) && s.newest < m
    requires Accept(s, c, user).Ok? && user !in s.conversations[c].acceptedBy && RemoveMember(s, c, who, member, m).Ok?
    ensures Invariant(H.Apply(H.Apply(s, H.AcceptCommit(c, user), 0, 0), H.RemoveCommit(c, who, member), m, 0))
  {
    H.CommitKeepsIff(s, H.AcceptCommit(c, user), 0, 0);
    H.CommitKeepsIff(H.Apply(s, H.AcceptCommit(c, user), 0, 0), H.RemoveCommit(c, who, member), m, 0);
  }

  // ----- Creating a direct chat twice -----

  lemma CrossedDirectsIff(s: State, first: Conversation, second: Conversation, c1: Id, c2: Id)
    requires Invariant(s) && c1 !in s.conversations && c2 !in s.conversations && c1 != c2
    requires !first.isGroup && H.Sane(s, H.CreateCommit(first)) && FoundDirect(s, first.users, None)
    requires !second.isGroup && H.Sane(s, H.CreateCommit(second)) && FoundDirect(s, second.users, None)
    ensures Invariant(H.Apply(H.Apply(s, H.CreateCommit(first), c1, 0), H.CreateCommit(second), c2, 0))
      <==> !SameMembers(first.users, second.users)
  {
    H.CommitKeepsIff(s, H.CreateCommit(first), c1, 0);
    var once := H.Apply(s, H.CreateCommit(first), c1, 0);
    H.CommitKeepsIff(once, H.CreateCommit(second), c2, 0);
    assert once.conversations[c1] == first;
  }

  // ----- Sending to a group while it is disbanded -----

  // The message is stored although its conversation is gone, unless it commits first.
  lemma SendCrossesDisband(s: State, c: Id, me: Id, sender: Id, m: Id, allowed: bool)
    requires Invariant(s) && s.newest < m && Disband(s, c, me).Ok? && Send(s, c, sender, m, allowed).Ok?
    ensures var send := H.PostCommit(c, sender, false); var disband := H.DisbandCommit(c);
      var late := H.Apply(H.Apply(s, disband, 0, 0), send, m, 0);
      && m in late.messages && late.messages[m].conversation == c && c !in late.conversations && !Invariant(late)
      && Invariant(H.Apply(H.Apply(s, send, m, 0), disband, 0, 0))
  {
    var send, disband := H.PostCommit(c, sender, false), H.DisbandCommit(c);
    H.CommitKeepsIff(s, disband, 0, 0);
    H.CommitKeepsIff(H.Apply(s, disband, 0, 0), send, m, 0);
    H.CommitKeepsIff(s, send, m, 0);
    H.CommitKeepsIff(H.Apply(s, send, m, 0), disband, 0, 0);
  }
}
