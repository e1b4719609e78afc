// The conversation and message handlers as code over the store. Each method does exactly what its handler is
// specified to do, and keeps the invariant of every conversation.
module ConversationServices {
  import opened Common
  import opened Conversations
  import opened ConversationInvariants

  lemma PostIsNewest(s: State, c: Id, sender: Id, m: Id, isCall: bool)
    requires c in s.conversations
    ensures var before, after := s.conversations[c], Post(s, c, sender, m, isCall).conversations[c];
      Invariant(s) && m > s.newest ==>
        && Invariant(Post(s, c, sender, m, isCall))
        && (forall user :: !IsHiddenFor(after.hiddenHistory, user))
        && (sender in before.receipts ==> before.receipts[sender] < after.receipts[sender])
  {
    if Invariant(s) && m > s.newest {
      PostKeeps(s, c, sender, m, isCall);
      RestoredFacts(s.conversations[c].hiddenHistory);
      assert SoundMessages(s.messages, c, s.conversations[c]);
    }
  }

  class ConversationService {
    var conversations: map<Id, Conversation>
    var messages: map<Id, Message>
    var newest: Id

    constructor ()
      ensures Snapshot() == START && Valid()
    {
      conversations, messages, newest := map[], map[], 0;
    }

    ghost function Snapshot(): State
      reads this
    {
      State(conversations, messages, newest)
    }

    ghost predicate Valid()
      reads this
    {
      Invariant(Snapshot())
    }

    // What a handler that answers `refusal` did to the store `before`.
    ghost predicate Did(before: State, e: Event, refusal: Option<Error>)
      reads this
    {
      && Valid()
      && (if refusal.None? then Handle(before, e) == Ok(Snapshot())
          else Handle(before, e) == Err(refusal.value) && Snapshot() == before)
    }

    // The message itself, then lastMessageId, hiddenHistory and the sender's receipt. A newer message keeps the
    // invariant, hides the conversation from nobody, and has been read by its sender, whose receipt moves forward;
    // the other receipts, the members and the other conversations stay.
    method InsertMessage(c: Id, sender: Id, m: Id, isCall: bool)
      requires c in conversations
      modifies this
      ensures Snapshot() == Post(old(Snapshot()), c, sender, m, isCall)
      ensures old(Valid()) && m > old(newest) ==>
        && Valid()
        && (forall user :: !IsHiddenFor(conversations[c].hiddenHistory, user))
        && (sender in old(conversations)[c].receipts ==>
              old(conversations)[c].receipts[sender] < conversations[c].receipts[sender])
        && (forall u | u in old(conversations)[c].receipts && u != sender ::
              u in conversations[c].receipts && conversations[c].receipts[u] == old(conversations)[c].receipts[u])
      ensures conversations[c].users == old(conversations)[c].users
      ensures forall d | d in old(conversations) && d != c ::
                d in conversations && conversations[d] == old(conversations)[d]
    {
      PostIsNewest(Snapshot(), c, sender, m, isCall);
      messages := messages[m := Message(c, sender, false, isCall)];
      newest := m;
      var conversation := conversations[c];
      conversation := conversation.(lastMessage := Some(m));
      conversation := conversation.(hiddenHistory := Restored(conversation.hiddenHistory));
      conversation := conversation.(receipts := conversation.receipts[sender := m]);
      conversations := conversations[c := conversation];
    }

    method CreateMessage(c: Id, sender: Id, m: Id, allowed: bool) returns (refusal: Option<Error>)
      requires Valid() && m > newest
      modifies this
      ensures Did(old(Snapshot()), SendEvent(c, sender, m, allowed), refusal)
    {
      ghost var e := SendEvent(c, sender, m, allowed);
      StepKeepsInvariant(Snapshot(), e);
      if c !in conversations {
        return Some(ConversationNotFound);
      }
      if !allowed {
        return Some(CannotSend);
      }
      if sender !in conversations[c].users {
        return Some(NotAMember);
      }
      InsertMessage(c, sender, m, false);
      refusal := None;
    }

    method CreateDirectConversation(c: Id, me: Id, others: seq<Id>, answers: Answers, found: Option<Id>, now: Instant)
      returns (refusal: Option<Error>)
      requires Valid() && Plausible(Snapshot(), DirectEvent(c, me, others, answers, found, now))
      modifies `conversations
      ensures Did(old(Snapshot()), DirectEvent(c, me, others, answers, found, now), refusal)
    {
      StepKeepsInvariant(Snapshot(), DirectEvent(c, me, others, answers, found, now));
      var normalizedUsers := Unique([me] + others);
      if |normalizedUsers| != 2 {
        return Some(DirectMustBeTwo);
      }
      var listMember := Members(me, others, answers.blocked);
      if |listMember| != 2 {
        return Some(DirectMustBeTwo);
      }
      if !answers.allExist {
        return Some(UsersNotExist);
      }
      if found.Some? {
        var existing := conversations[found.value];
        if IsHiddenFor(existing.hiddenHistory, me) {
          existing := existing.(hiddenHistory := SetEntry(existing.hiddenHistory, me, false, None));
          existing := existing.(acceptedBy := existing.acceptedBy + [me]);
          conversations := conversations[found.value := existing];
        }
        return None;
      }
      var target := listMember[1];
      var acceptedBy := [me];
      if target in answers.friends {
        acceptedBy := acceptedBy + [target];
        assert acceptedBy == [me, target];
      }
      conversations := conversations[c :=
        Conversation(false, listMember, acceptedBy, None, None, None, [Hidden(target, true, now)], map[])];
      refusal := None;
    }

    // The creator, and one after the other the friends among the users asked for.
    method AcceptFriends(me: Id, friendIds: seq<Id>) returns (acceptedBy: seq<Id>)
      ensures acceptedBy == [me] + friendIds
    {
      acceptedBy := [me];
      for i := 0 to |friendIds|
        invariant acceptedBy == [me] + friendIds[..i]
      {
        acceptedBy := acceptedBy + [friendIds[i]];
      }
      assert friendIds[..|friendIds|] == friendIds;
    }

    method CreateGroupConversation(c: Id, me: Id, others: seq<Id>, hasName: bool, answers: Answers)
      returns (refusal: Option<Error>)
      requires Valid() && Plausible(Snapshot(), GroupEvent(c, me, others, hasName, answers))
      modifies `conversations
      ensures Did(old(Snapshot()), GroupEvent(c, me, others, hasName, answers), refusal)
    {
      StepKeepsInvariant(Snapshot(), GroupEvent(c, me, others, hasName, answers));
      var normalizedUsers := Unique([me] + others);
      if !hasName {
        return Some(GroupNameRequired);
      }
      if |normalizedUsers| < 3 {
        return Some(GroupMinThree);
      }
      if |normalizedUsers| > MAX_GROUP_MEMBERS {
        return Some(GroupMaxMembersExceeded);
      }
      var listMember := Members(me, others, answers.blocked);
      if |listMember| < 3 {
        return Some(GroupMinThree);
      }
      if !answers.allExist {
        return Some(UsersNotExist);
      }
      var otherUserIds := Without(others, me);
      var acceptedBy := AcceptFriends(me, Keep(Unique(otherUserIds), answers.friends));
      if answers.recentGroup.Some? {
        return None;
      }
      conversations := conversations[c := Conversation(true, listMember, acceptedBy, Some(me), None, None, [], map[])];
      refusal := None;
    }

    method AddMembers(c: Id, me: Id, memberIds: seq<Id>, eligible: set<Id>, m: Id, now: Instant)
      returns (refusal: Option<Error>)
      requires Valid() && m > newest
      modifies this
      ensures Did(old(Snapshot()), AddEvent(c, me, memberIds, eligible, m, now), refusal)
    {
      StepKeepsInvariant(Snapshot(), AddEvent(c, me, memberIds, eligible, m, now));
      if c !in conversations {
        return Some(ConversationNotFound);
      }
      var conversation := conversations[c];
      if !conversation.isGroup {
        return Some(NotAGroup);
      }
      if conversation.admin != Some(me) {
        return Some(NotGroupAdmin);
      }
      var validMemberIds := ValidMembers(conversation, memberIds, eligible);
      if validMemberIds == [] {
        return Some(UsersNotExist);
      }
      if |conversation.users| + |validMemberIds| > MAX_GROUP_MEMBERS {
        return Some(GroupMaxMembersExceeded);
      }
      ValidMembersJoin(conversation, memberIds, eligible);
      conversation := conversation.(users := conversation.users + validMemberIds);
      conversation := conversation.(
        hiddenHistory := conversation.hiddenHistory + NewEntries(validMemberIds, false, now));
      conversations := conversations[c := conversation];
      InsertMessage(c, me, m, false);
      refusal := None;
    }

    method RemoveMember(c: Id, me: Id, member: Id, m: Id) returns (refusal: Option<Error>)
      requires Valid() && m > newest
      modifies this
      ensures Did(old(Snapshot()), RemoveEvent(c, me, member, m), refusal)
    {
      StepKeepsInvariant(Snapshot(), RemoveEvent(c, me, member, m));
      if c !in conversations {
        return Some(ConversationNotFound);
      }
      var conversation := conversations[c];
      if !conversation.isGroup {
        return Some(NotAGroup);
      }
      if me != member && conversation.admin != Some(me) {
        return Some(NotGroupAdmin);
      }
      if me == member && conversation.admin == Some(me) {
        return Some(CannotRemoveAdmin);
      }
      if member !in conversation.users {
        return Some(NotAMember);
      }
      conversation := conversation.(users := Without(conversation.users, member));
      conversation := conversation.(hiddenHistory := EntriesWithout(conversation.hiddenHistory, member));
      conversation := conversation.(acceptedBy := Without(conversation.acceptedBy, member));
      conversation := conversation.(receipts := conversation.receipts - {member});
      conversations := conversations[c := conversation];
      InsertMessage(c, me, m, false);
      refusal := None;
    }

    method ChangeAdminGroup(c: Id, me: Id, newAdmin: Id, usable: bool, blocked: bool, m: Id)
      returns (refusal: Option<Error>)
      requires Valid() && m > newest
      modifies this
      ensures Did(old(Snapshot()), ChangeAdminEvent(c, me, newAdmin, usable, blocked, m), refusal)
    {
      StepKeepsInvariant(Snapshot(), ChangeAdminEvent(c, me, newAdmin, usable, blocked, m));
      if c !in conversations {
        return Some(ConversationNotFound);
      }
      var conversation := conversations[c];
      if !conversation.isGroup {
        return Some(NotAGroup);
      }
      if conversation.admin != Some(me) {
        return Some(NotGroupAdmin);
      }
      if newAdmin !in conversation.users {
        return Some(NotAMember);
      }
      if newAdmin !in conversation.acceptedBy {
        return Some(NotAccepted);
      }
      if !usable {
        return Some(UsersNotExist);
      }
      if blocked {
        return Some(ChangeAdminFailed);
      }
      if me == newAdmin {
        return Some(AlreadyAdmin);
      }
      conversations := conversations[c := conversation.(admin := Some(newAdmin))];
      InsertMessage(c, me, m, false);
      refusal := None;
    }

    method HiddenHistory(c: Id, user: Id, isFriend: bool, now: Instant) returns (refusal: Option<Error>)
      requires Valid()
      modifies `conversations
      ensures Did(old(Snapshot()), HideEvent(c, user, isFriend, now), refusal)
    {
      StepKeepsInvariant(Snapshot(), HideEvent(c, user, isFriend, now));
      if c !in conversations {
        return Some(ConversationNotFound);
      }
      var conversation := conversations[c];
      if user !in conversation.users {
        return Some(NotAMember);
      }
      if IsHiddenFor(conversation.hiddenHistory, user) {
        return Some(AlreadyHidden);
      }
      if !conversation.isGroup && !isFriend {
        conversation := conversation.(acceptedBy := Without(conversation.acceptedBy, user));
      }
      if HasEntry(conversation.hiddenHistory, user) {
        conversation := conversation.(hiddenHistory := SetEntry(conversation.hiddenHistory, user, true, Some(now)));
      } else {
        conversation := conversation.(hiddenHistory := conversation.hiddenHistory + [Hidden(user, true, now)]);
      }
      conversations := conversations[c := conversation];
      refusal := None;
    }

    method MarkAsRead(c: Id, user: Id, m: Id) returns (refusal: Option<Error>)
      requires Valid()
      modifies `conversations
      ensures Did(old(Snapshot()), MarkAsReadEvent(c, user, m), refusal)
    {
      StepKeepsInvariant(Snapshot(), MarkAsReadEvent(c, user, m));
      if c !in conversations {
        return Some(ConversationNotFound);
      }
      if m !in messages || messages[m].conversation != c {
        return Some(MessageNotFound);
      }
      var conversation := conversations[c];
      if user !in conversation.users {
        return Some(NotAMember);
      }
      if user in conversation.receipts {
        var lastReadMessageId := conversation.receipts[user];
        if lastReadMessageId != m && lastReadMessageId > m {
          return Some(CannotReadOlder);
        }
      }
      conversations := conversations[c := conversation.(receipts := conversation.receipts[user := m])];
      refusal := None;
    }

    method PinMessage(c: Id, m: Id, user: Id) returns (refusal: Option<Error>)
      requires Valid()
      modifies `conversations
      ensures Did(old(Snapshot()), PinEvent(c, m, user), refusal)
    {
      StepKeepsInvariant(Snapshot(), PinEvent(c, m, user));
      if c !in conversations {
        return Some(ConversationNotFound);
      }
      var conversation := conversations[c];
      if conversation.isGroup {
        if conversation.admin != Some(user) {
          return Some(NotGroupAdmin);
        }
      } else if user !in conversation.users {
        return Some(NotAMember);
      }
      if m !in messages || messages[m].conversation != c {
        return Some(MessageNotFound);
      }
      if messages[m].isDeleted {
        return Some(AlreadyDeleted);
      }
      if messages[m].isCall {
        return Some(CallMessage);
      }
      conversations := conversations[c := conversation.(pin := Some(m))];
      refusal := None;
    }

    method SoftDeleteMessage(c: Id, m: Id, user: Id) returns (refusal: Option<Error>)
      requires Valid()
      modifies `conversations, `messages
      ensures Did(old(Snapshot()), SoftDeleteEvent(c, m, user), refusal)
    {
      StepKeepsInvariant(Snapshot(), SoftDeleteEvent(c, m, user));
      if c !in conversations {
        return Some(ConversationNotFound);
      }
      var conversation := conversations[c];
      if user !in conversation.users {
        return Some(NotAMember);
      }
      if IsHiddenFor(conversation.hiddenHistory, user) {
        return Some(UserHidden);
      }
      if m !in messages || messages[m].conversation != c {
        return Some(MessageNotFound);
      }
      if messages[m].sender != user {
        return Some(NotMessageOwner);
      }
      if messages[m].isDeleted {
        return Some(AlreadyDeleted);
      }
      if messages[m].isCall {
        return Some(CallMessage);
      }
      var shouldClearPin := conversation.pin == Some(m);
      messages := messages[m := messages[m].(isDeleted := true)];
      if shouldClearPin {
        conversations := conversations[c := conversation.(pin := None)];
      }
      refusal := None;
    }

    method UnpinMessage(c: Id, m: Id, user: Id) returns (refusal: Option<Error>)
      requires Valid()
      modifies `conversations
      ensures Did(old(Snapshot()), UnpinEvent(c, m, user), refusal)
    {
      StepKeepsInvariant(Snapshot(), UnpinEvent(c, m, user));
      if c !in conversations {
        return Some(ConversationNotFound);
      }
      var conversation := conversations[c];
      if !CanPin(conversation, user) {
        return Some(if conversation.isGroup then NotGroupAdmin else NotAMember);
      }
      if conversation.pin != Some(m) {
        return Some(NotPinned);
      }
      conversations := conversations[c := conversation.(pin := None)];
      refusal := None;
    }

    method AcceptConversation(c: Id, user: Id) returns (refusal: Option<Error>)
      requires Valid()
      modifies `conversations
      ensures Did(old(Snapshot()), AcceptEvent(c, user), refusal)
    {
      StepKeepsInvariant(Snapshot(), AcceptEvent(c, user));
      if c !in conversations {
        return Some(ConversationNotFound);
      }
      var conversation := conversations[c];
      if user !in conversation.users {
        return Some(NotAMember);
      }
      if user !in conversation.acceptedBy {
        conversations := conversations[c := conversation.(acceptedBy := conversation.acceptedBy + [user])];
      }
      refusal := None;
    }

    method DisbandGroup(c: Id, me: Id) returns (refusal: Option<Error>)
      requires Valid()
      modifies `conversations, `messages
      ensures Did(old(Snapshot()), DisbandEvent(c, me), refusal)
    {
      StepKeepsInvariant(Snapshot(), DisbandEvent(c, me));
      if c !in conversations {
        return Some(ConversationNotFound);
      }
      if !conversations[c].isGroup {
        return Some(NotAGroup);
      }
      if conversations[c].admin != Some(me) {
        return Some(NotGroupAdmin);
      }
      messages := map m | m in messages && messages[m].conversation != c :: messages[m];
      conversations := conversations - {c};
      refusal := None;
    }
  }
}
