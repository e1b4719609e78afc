// What each conversation handler does, and why it refuses, in terms of the records alone: src/modules/conversations/
// (conversation-command, -member, -state, -group-admin .service.ts) and src/modules/messages/
// (message-command, message-pin .service.ts).
module ConversationEffects {
  import opened Common
  import opened Conversations
  import opened ConversationInvariants
  import opened Sequences

  // Every record but this conversation and this message is as it was.
  ghost predicate OnlyTouches(s: State, t: State, c: Id, m: Id) {
    && (forall d | d != c :: d in t.conversations <==> d in s.conversations)
    && (forall d | d in s.conversations && d != c :: t.conversations[d] == s.conversations[d])
    && (forall n | n != m :: n in t.messages <==> n in s.messages)
    && (forall n | n in s.messages && n != m :: t.messages[n] == s.messages[n])
  }

  // A message has been posted: it is the last one, nobody has the conversation hidden, and the sender has read it.
  ghost predicate Posted(s: State, t: State, c: Id, before: Conversation, sender: Id, m: Id, isCall: bool) {
    && OnlyTouches(s, t, c, m) && t.newest == m && c in t.conversations
    && m in t.messages && t.messages[m] == Message(c, sender, false, isCall)
    && var after := t.conversations[c];
       && after.isGroup == before.isGroup && after.users == before.users && after.acceptedBy == before.acceptedBy
       && after.admin == before.admin && after.pin == before.pin
       && after.lastMessage == Some(m) && after.receipts == before.receipts[sender := m]
       && SameEntriesVisible(before.hiddenHistory, after.hiddenHistory)
  }

  ghost predicate SameEntriesVisible(before: seq<Hidden>, after: seq<Hidden>) {
    && |after| == |before|
    && forall i | 0 <= i < |before| :: after[i] == Hidden(before[i].user, false, before[i].hiddenAt)
  }

  lemma PostSays(s: State, c: Id, before: Conversation, sender: Id, m: Id, isCall: bool)
    ensures Posted(s, Post(s.(conversations := s.conversations[c := before]), c, sender, m, isCall), c, before,
                   sender, m, isCall)
  {
    RestoredFacts(before.hiddenHistory);
  }

  lemma SendSays(s: State, c: Id, sender: Id, m: Id, allowed: bool)
    ensures var r := Send(s, c, sender, m, allowed);
      && (c !in s.conversations <==> r == Err(ConversationNotFound))
      && (c in s.conversations && !allowed <==> r == Err(CannotSend))
      && (c in s.conversations && allowed && sender !in s.conversations[c].users <==> r == Err(NotAMember))
      && (c in s.conversations && allowed && sender in s.conversations[c].users <==> r.Ok?)
      && (r.Ok? ==> Posted(s, r.value, c, s.conversations[c], sender, m, false))
  {
    if c in s.conversations {
      assert s.conversations[c := s.conversations[c]] == s.conversations;
      PostSays(s, c, s.conversations[c], sender, m, false);
    }
  }

  // Whatever is asked of a conversation that is not there is refused for that reason.
  lemma UnknownConversationsAreRefused(s: State, e: Event)
    requires !e.DirectEvent? && !e.GroupEvent? && e.c !in s.conversations
    ensures Handle(s, e) == Err(ConversationNotFound) && Step(s, e) == s
  {
  }

  // ----- Members -----

  lemma {:induction false} DistinctSize(ids: seq<Id>)
    requires Distinct(ids)
    ensures |Elements(ids)| == |ids|
  {
    if ids == [] {
      assert Elements(ids) == {};
    } else {
      var n := |ids| - 1;
      DistinctSize(ids[..n]);
      assert ids == ids[..n] + [ids[n]];
      assert Elements(ids) == Elements(ids[..n]) + {ids[n]};
      assert ids[n] !in Elements(ids[..n]);
    }
  }

  function Elements(ids: seq<Id>): set<Id> {
    set u | u in ids
  }

  function Newcomers(conversation: Conversation, memberIds: seq<Id>, eligible: set<Id>): set<Id> {
    set u | u in memberIds && u in eligible && u !in conversation.users
  }

  lemma NewcomersAreValid(conversation: Conversation, memberIds: seq<Id>, eligible: set<Id>)
    ensures var valid := ValidMembers(conversation, memberIds, eligible);
      && Elements(valid) == Newcomers(conversation, memberIds, eligible)
      && |valid| == |Newcomers(conversation, memberIds, eligible)| && Distinct(valid)
  {
    var valid := ValidMembers(conversation, memberIds, eligible);
    UniqueFacts(memberIds);
    KeepFacts(Unique(memberIds), eligible - (set u | u in conversation.users));
    DistinctSize(valid);
    assert Elements(valid) == Newcomers(conversation, memberIds, eligible);
  }

  // The admin of a group adds whoever is eligible and no member yet, if there is anybody and the group stays within a
  // thousand; they come after the present members, each once, with a visible entry of their own.
  lemma AddSays(s: State, c: Id, me: Id, memberIds: seq<Id>, eligible: set<Id>, m: Id, now: Instant)
    requires c in s.conversations
    ensures var conversation := s.conversations[c];
      var newcomers := Newcomers(conversation, memberIds, eligible);
      var r := AddMembers(s, c, me, memberIds, eligible, m, now);
      && (!conversation.isGroup <==> r == Err(NotAGroup))
      && (conversation.isGroup && conversation.admin != Some(me) <==> r == Err(NotGroupAdmin))
      && (conversation.isGroup && conversation.admin == Some(me) && newcomers == {} <==> r == Err(UsersNotExist))
      && (conversation.isGroup && conversation.admin == Some(me) && newcomers != {} ==>
            && (|conversation.users| + |newcomers| > 1000 <==> r == Err(GroupMaxMembersExceeded))
            && (|conversation.users| + |newcomers| <= 1000 <==> r.Ok?))
      && (r.Ok? ==>
            conversation.isGroup && conversation.admin == Some(me) && newcomers != {})
      && (r.Ok? ==> exists added: seq<Id> ::
            && Distinct(added) && Elements(added) == newcomers
            && Posted(s, r.value, c, WithMembers(conversation, added, now), me, m, false))
  {
    var conversation := s.conversations[c];
    var added := ValidMembers(conversation, memberIds, eligible);
    NewcomersAreValid(conversation, memberIds, eligible);
    ValidMembersJoin(conversation, memberIds, eligible);
    NewEntriesFacts(added, false, now);
    var entries := NewEntries(added, false, now);
    assert entries == seq(|added|, i requires 0 <= i < |added| => Hidden(added[i], false, now));
    PostSays(s, c, WithMembers(conversation, added, now), me, m, false);
  }

  function WithMembers(conversation: Conversation, added: seq<Id>, now: Instant): Conversation {
    conversation.(
      users := conversation.users + added,
      hiddenHistory := conversation.hiddenHistory
                       + seq(|added|, i requires 0 <= i < |added| => Hidden(added[i], false, now)))
  }

  // Nothing is left of this member but what the others need; the rest stays in order.
  ghost predicate MemberGone(before: Conversation, after: Conversation, member: Id) {
    && after.isGroup == before.isGroup && after.admin == before.admin && after.pin == before.pin
    && (forall u :: u in after.users <==> u in before.users && u != member)
    && (forall u :: u in after.acceptedBy <==> u in before.acceptedBy && u != member)
    && (forall h :: h in after.hiddenHistory <==> h in before.hiddenHistory && h.user != member)
    && after.receipts == before.receipts - {member}
    && (Distinct(before.users) ==> Distinct(after.users))
  }

  // Members leave by themselves unless they are the admin, and only the admin removes others.
  lemma RemoveSays(s: State, c: Id, me: Id, member: Id, m: Id)
    requires c in s.conversations
    ensures var conversation := s.conversations[c]; var r := RemoveMember(s, c, me, member, m);
      && (!conversation.isGroup <==> r == Err(NotAGroup))
      && (conversation.isGroup && me != member && conversation.admin != Some(me) <==> r == Err(NotGroupAdmin))
      && (conversation.isGroup && me == member && conversation.admin == Some(me) <==> r == Err(CannotRemoveAdmin))
      && (r.Ok? <==> conversation.isGroup && member in conversation.users
                     && (me == member <==> conversation.admin != Some(me)))
      && (r.Err? && r.error != NotAGroup && r.error != NotGroupAdmin && r.error != CannotRemoveAdmin ==>
            r.error == NotAMember)
      && (r.Ok? ==> exists left ::
            MemberGone(conversation, left, member) && Posted(s, r.value, c, left, me, m, false))
  {
    var conversation := s.conversations[c];
    var left := conversation.(users := Without(conversation.users, member),
                              hiddenHistory := EntriesWithout(conversation.hiddenHistory, member),
                              acceptedBy := Without(conversation.acceptedBy, member),
                              receipts := conversation.receipts - {member});
    WithoutFacts(conversation.users, member);
    WithoutFacts(conversation.acceptedBy, member);
    EntriesWithoutFacts(conversation.hiddenHistory, member);
    assert MemberGone(conversation, left, member);
    PostSays(s, c, left, me, m, false);
  }

  // The admin hands a group over to another member who has accepted it, is usable and is not blocked.
  lemma ChangeAdminSays(s: State, c: Id, me: Id, newAdmin: Id, usable: bool, blocked: bool, m: Id)
    requires c in s.conversations
    ensures var conversation := s.conversations[c];
      var r := ChangeAdmin(s, c, me, newAdmin, usable, blocked, m);
      && (!conversation.isGroup <==> r == Err(NotAGroup))
      && (conversation.isGroup && conversation.admin != Some(me) <==> r == Err(NotGroupAdmin))
      && (r.Ok? <==>
            && conversation.isGroup && conversation.admin == Some(me) && me != newAdmin
            && newAdmin in conversation.users && newAdmin in conversation.acceptedBy && usable && !blocked)
      && (conversation.isGroup && conversation.admin == Some(me) ==>
            && (newAdmin !in conversation.users <==> r == Err(NotAMember))
            && (newAdmin in conversation.users && newAdmin !in conversation.acceptedBy <==> r == Err(NotAccepted))
            && (newAdmin in conversation.users && newAdmin in conversation.acceptedBy ==>
                  && (!usable <==> r == Err(UsersNotExist))
                  && (usable && blocked <==> r == Err(ChangeAdminFailed))
                  && (usable && !blocked && me == newAdmin <==> r == Err(AlreadyAdmin))))
      && (r.Ok? ==> Posted(s, r.value, c, conversation.(admin := Some(newAdmin)), me, m, false))
  {
    PostSays(s, c, s.conversations[c].(admin := Some(newAdmin)), me, m, false);
  }

  // The admin disbands a group: it goes with exactly its messages.
  lemma DisbandSays(s: State, c: Id, me: Id)
    requires c in s.conversations
    ensures var conversation := s.conversations[c]; var r := Disband(s, c, me);
      && (!conversation.isGroup <==> r == Err(NotAGroup))
      && (conversation.isGroup && conversation.admin != Some(me) <==> r == Err(NotGroupAdmin))
      && (conversation.isGroup && conversation.admin == Some(me) <==> r.Ok?)
      && (r.Ok? ==>
            && r.value.newest == s.newest && c !in r.value.conversations
            && (forall d | d != c :: d in r.value.conversations <==> d in s.conversations)
            && (forall d | d in r.value.conversations :: r.value.conversations[d] == s.conversations[d])
            && (forall n :: n in r.value.messages <==> n in s.messages && s.messages[n].conversation != c)
            && (forall n | n in r.value.messages :: r.value.messages[n] == s.messages[n]))
  {
  }

  // ----- Own state -----

  // One field of one conversation changes.
  ghost predicate Becomes(s: State, t: State, c: Id, after: Conversation) {
    t == s.(conversations := s.conversations[c := after])
  }

  lemma AcceptSays(s: State, c: Id, user: Id)
    requires c in s.conversations
    ensures var conversation := s.conversations[c]; var r := Accept(s, c, user);
      && (user !in conversation.users <==> r == Err(NotAMember))
      && (user in conversation.users <==> r.Ok?)
      && (r.Ok? ==>
            if user in conversation.acceptedBy then r.value == s
            else Becomes(s, r.value, c, conversation.(acceptedBy := conversation.acceptedBy + [user])))
  {
  }

  // The entry of this user is hidden since `now`; nobody else's changes.
  ghost predicate HiddenFor(before: seq<Hidden>, after: seq<Hidden>, user: Id, now: Instant) {
    if exists i :: 0 <= i < |before| && before[i].user == user then
      && |after| == |before|
      && (forall i | 0 <= i < |before| ::
            after[i] == if before[i].user == user then Hidden(user, true, now) else before[i])
    else after == before + [Hidden(user, true, now)]
  }

  lemma {:induction false} SetEntrySays(entries: seq<Hidden>, user: Id, isHidden: bool, hiddenAt: Option<Instant>)
    ensures |SetEntry(entries, user, isHidden, hiddenAt)| == |entries|
    ensures forall i | 0 <= i < |entries| ::
      SetEntry(entries, user, isHidden, hiddenAt)[i]
      == if entries[i].user == user
         then Hidden(user, isHidden, if hiddenAt.Some? then hiddenAt.value else entries[i].hiddenAt)
         else entries[i]
  {
    if entries == [] {
    } else {
      SetEntrySays(entries[..|entries| - 1], user, isHidden, hiddenAt);
    }
  }

  // A member hides a conversation that is not hidden yet; the acceptance goes exactly in a direct chat with a
  // stranger.
  lemma HideSays(s: State, c: Id, user: Id, isFriend: bool, now: Instant)
    requires c in s.conversations
    ensures var conversation := s.conversations[c]; var r := Hide(s, c, user, isFriend, now);
      var hidden := exists i :: 0 <= i < |conversation.hiddenHistory| && conversation.hiddenHistory[i].user == user
                                && conversation.hiddenHistory[i].isHidden;
      && (user !in conversation.users <==> r == Err(NotAMember))
      && (user in conversation.users && hidden <==> r == Err(AlreadyHidden))
      && (user in conversation.users && !hidden <==> r.Ok?)
      && (r.Ok? ==>
            && c in r.value.conversations
            && var after := r.value.conversations[c];
               && Becomes(s, r.value, c, conversation.(hiddenHistory := after.hiddenHistory,
                                                       acceptedBy := after.acceptedBy))
               && HiddenFor(conversation.hiddenHistory, after.hiddenHistory, user, now)
               && (if conversation.isGroup || isFriend then after.acceptedBy == conversation.acceptedBy
                   else forall u :: u in after.acceptedBy <==> u in conversation.acceptedBy && u != user))
  {
    SetEntrySays(s.conversations[c].hiddenHistory, user, true, Some(now));
    WithoutFacts(s.conversations[c].acceptedBy, user);
  }

  lemma MarkAsReadSays(s: State, c: Id, user: Id, m: Id)
    requires c in s.conversations
    ensures var conversation := s.conversations[c]; var r := MarkAsRead(s, c, user, m);
      var known := m in s.messages && s.messages[m].conversation == c;
      && (!known <==> r == Err(MessageNotFound))
      && (known && user !in conversation.users <==> r == Err(NotAMember))
      && (known && user in conversation.users && user in conversation.receipts && m < conversation.receipts[user]
          <==> r == Err(CannotReadOlder))
      && (r.Ok? <==> known && user in conversation.users
                     && (user in conversation.receipts ==> conversation.receipts[user] <= m))
      && (r.Ok? ==> Becomes(s, r.value, c, conversation.(receipts := conversation.receipts[user := m])))
  {
  }

  // ----- Deleting and pinning -----

  // The sender deletes his own message, not while the conversation is hidden for him; a pin on it goes with it.
  lemma SoftDeleteSays(s: State, c: Id, m: Id, user: Id)
    requires c in s.conversations
    ensures var conversation := s.conversations[c]; var r := SoftDelete(s, c, m, user);
      var hidden := exists i :: 0 <= i < |conversation.hiddenHistory| && conversation.hiddenHistory[i].user == user
                                && conversation.hiddenHistory[i].isHidden;
      var known := m in s.messages && s.messages[m].conversation == c;
      && (user !in conversation.users <==> r == Err(NotAMember))
      && (user in conversation.users && hidden <==> r == Err(UserHidden))
      && (user in conversation.users && !hidden ==>
            && (!known <==> r == Err(MessageNotFound))
            && (known && s.messages[m].sender != user <==> r == Err(NotMessageOwner))
            && (known && s.messages[m].sender == user && s.messages[m].isDeleted <==> r == Err(AlreadyDeleted))
            && (known && s.messages[m].sender == user && !s.messages[m].isDeleted && s.messages[m].isCall
                <==> r == Err(CallMessage)))
      && (r.Ok? <==> user in conversation.users && !hidden && known && s.messages[m].sender == user
                     && !s.messages[m].isDeleted && !s.messages[m].isCall)
      && (r.Ok? ==>
            && r.value.messages == s.messages[m := s.messages[m].(isDeleted := true)] && r.value.newest == s.newest
            && r.value.conversations
               == if conversation.pin == Some(m) then s.conversations[c := conversation.(pin := None)]
                  else s.conversations)
  {
  }

  predicate MayPin(conversation: Conversation, user: Id) {
    && (conversation.isGroup ==> conversation.admin == Some(user))
    && (!conversation.isGroup ==> user in conversation.users)
  }

  lemma PinSays(s: State, c: Id, m: Id, user: Id)
    requires c in s.conversations
    ensures var conversation := s.conversations[c]; var r := Pin(s, c, m, user);
      var known := m in s.messages && s.messages[m].conversation == c;
      && (!MayPin(conversation, user) && conversation.isGroup <==> r == Err(NotGroupAdmin))
      && (!MayPin(conversation, user) && !conversation.isGroup <==> r == Err(NotAMember))
      && (MayPin(conversation, user) && !known <==> r == Err(MessageNotFound))
      && (MayPin(conversation, user) && known && s.messages[m].isDeleted <==> r == Err(AlreadyDeleted))
      && (MayPin(conversation, user) && known && !s.messages[m].isDeleted && s.messages[m].isCall
          <==> r == Err(CallMessage))
      && (r.Ok? <==> MayPin(conversation, user) && known && !s.messages[m].isDeleted && !s.messages[m].isCall)
      && (r.Ok? ==> Becomes(s, r.value, c, conversation.(pin := Some(m))))
  {
  }

  lemma UnpinSays(s: State, c: Id, m: Id, user: Id)
    requires c in s.conversations
    ensures var conversation := s.conversations[c]; var r := Unpin(s, c, m, user);
      && (!MayPin(conversation, user) && conversation.isGroup <==> r == Err(NotGroupAdmin))
      && (!MayPin(conversation, user) && !conversation.isGroup <==> r == Err(NotAMember))
      && (MayPin(conversation, user) && conversation.pin != Some(m) <==> r == Err(NotPinned))
      && (MayPin(conversation, user) && conversation.pin == Some(m) <==> r.Ok?)
      && (r.Ok? ==> Becomes(s, r.value, c, conversation.(pin := None)))
  {
  }

  // ----- Creation -----

  // Who takes part: the creator and those of the others he is not blocked with.
  function Participants(me: Id, others: seq<Id>, blocked: set<Id>): set<Id> {
    (set u | u in others && u !in blocked) + {me}
  }

  lemma ParticipantsAreMembers(me: Id, others: seq<Id>, blocked: set<Id>)
    requires me !in blocked
    ensures var members := Members(me, others, blocked);
      && Elements(members) == Participants(me, others, blocked) && |members| == |Participants(me, others, blocked)|
      && Distinct(members) && members != [] && members[0] == me
      && |Unique([me] + others)| == |Elements(others) + {me}|
  {
    MembersFacts(me, others, blocked);
    var members := Members(me, others, blocked);
    DistinctSize(members);
    assert Elements(members) == Participants(me, others, blocked);
    UniqueFacts([me] + others);
    DistinctSize(Unique([me] + others));
    assert Elements(Unique([me] + others)) == Elements(others) + {me};
  }

  // A direct chat is between the creator and exactly one other; a found one is shown to the creator again, and
  // accepted, if it was hidden for him; a new one is hidden for the other, who has accepted it if he is a friend.
  lemma DirectSays(s: State, c: Id, me: Id, others: seq<Id>, a: Answers, found: Option<Id>, now: Instant)
    requires me !in a.blocked && (found.Some? ==> found.value in s.conversations)
    ensures var r := CreateDirect(s, c, me, others, a, found, now);
      var two := |Elements(others) + {me}| == 2 && |Participants(me, others, a.blocked)| == 2;
      && (!two <==> r == Err(DirectMustBeTwo))
      && (two && !a.allExist <==> r == Err(UsersNotExist))
      && (two && a.allExist <==> r.Ok?)
      && (r.Ok? && found.Some? ==>
            var conversation := s.conversations[found.value];
            if exists i :: 0 <= i < |conversation.hiddenHistory| && conversation.hiddenHistory[i].user == me
                           && conversation.hiddenHistory[i].isHidden
            then
              && found.value in r.value.conversations
              && var after := r.value.conversations[found.value];
                 && Becomes(s, r.value, found.value,
                            conversation.(acceptedBy := conversation.acceptedBy + [me],
                                          hiddenHistory := after.hiddenHistory))
                 && ShownTo(conversation.hiddenHistory, after.hiddenHistory, me)
            else r.value == s)
      && (r.Ok? && found.None? ==> exists target ::
            && target != me && target in others && target !in a.blocked
            && Becomes(s, r.value, c, NewDirect(me, target, target in a.friends, now)))
  {
    ParticipantsAreMembers(me, others, a.blocked);
    if found.Some? {
      SetEntrySays(s.conversations[found.value].hiddenHistory, me, false, None);
    } else {
      var members := Members(me, others, a.blocked);
      if |members| == 2 {
        assert members == [me, members[1]] && members[1] != me && members[1] in Participants(me, others, a.blocked);
      }
    }
  }

  function NewDirect(me: Id, target: Id, isFriend: bool, now: Instant): Conversation {
    Conversation(false, [me, target], if isFriend then [me, target] else [me], None, None, None,
                 [Hidden(target, true, now)], map[])
  }

  ghost predicate ShownTo(before: seq<Hidden>, after: seq<Hidden>, user: Id) {
    && |after| == |before|
    && forall i | 0 <= i < |before| ::
         after[i] == if before[i].user == user then Hidden(user, false, before[i].hiddenAt) else before[i]
  }

  // A group has a name, at least three and at most a thousand members, its creator as admin, and has been accepted by
  // him and by exactly those of his friends who were asked.
  lemma GroupSays(s: State, c: Id, me: Id, others: seq<Id>, hasName: bool, a: Answers)
    requires me !in a.blocked
    ensures var r := CreateGroup(s, c, me, others, hasName, a);
      var asked, taking := |Elements(others) + {me}|, |Participants(me, others, a.blocked)|;
      && (!hasName <==> r == Err(GroupNameRequired))
      && (hasName && asked > 1000 <==> r == Err(GroupMaxMembersExceeded))
      && (hasName && asked <= 1000 && (asked < 3 || taking < 3) <==> r == Err(GroupMinThree))
      && (hasName && 3 <= asked <= 1000 && 3 <= taking && !a.allExist <==> r == Err(UsersNotExist))
      && (hasName && 3 <= asked <= 1000 && 3 <= taking && a.allExist <==> r.Ok?)
      && (r.Ok? && a.recentGroup.Some? ==> r.value == s)
      && (r.Ok? && a.recentGroup.None? ==>
            && c in r.value.conversations
            && var group := r.value.conversations[c];
               && Becomes(s, r.value, c, group) && group.isGroup && group.admin == Some(me)
               && Elements(group.users) == Participants(me, others, a.blocked) && Distinct(group.users)
               && (forall u :: u in group.acceptedBy <==> u == me || (u in others && u in a.friends))
               && group.pin == None && group.lastMessage == None && group.hiddenHistory == []
               && group.receipts == map[])
  {
    ParticipantsAreMembers(me, others, a.blocked);
    WithoutFacts(others, me);
    UniqueFacts(Without(others, me));
    KeepFacts(Unique(Without(others, me)), a.friends);
  }
}
