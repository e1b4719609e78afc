// What every reachable conversation keeps.
module ConversationInvariants {
  import opened Common
  import opened Conversations
  import opened Sequences

  ghost predicate OneEntryEach(entries: seq<Hidden>) {
    forall i, j | 0 <= i < j < |entries| :: entries[i].user != entries[j].user
  }

  ghost predicate EntriesOf(entries: seq<Hidden>, users: seq<Id>) {
    forall i | 0 <= i < |entries| :: entries[i].user in users
  }

  ghost predicate Within(ids: seq<Id>, users: seq<Id>) {
    forall u | u in ids :: u in users
  }

  // Members are distinct and at most a thousand; a group's admin is a member and a direct chat has two members
  // and no admin; who accepted is a member; each member has at most one hidden-history entry and nobody else has one.
  ghost predicate SoundMembers(c: Conversation) {
    && Distinct(c.users) && |c.users| <= MAX_GROUP_MEMBERS
    && (if c.isGroup then c.admin.Some? && c.admin.value in c.users else c.admin.None? && |c.users| == 2)
    && Within(c.acceptedBy, c.users)
    && OneEntryEach(c.hiddenHistory) && EntriesOf(c.hiddenHistory, c.users)
  }

  // The pinned message is an undeleted message of the conversation, the last message is its newest,
  // and every receipt names one of its messages.
  ghost predicate SoundMessages(messages: map<Id, Message>, id: Id, c: Conversation) {
    && (c.pin.Some? ==> c.pin.value in messages && messages[c.pin.value].conversation == id
                        && !messages[c.pin.value].isDeleted)
    && (c.lastMessage.Some? ==> c.lastMessage.value in messages && messages[c.lastMessage.value].conversation == id)
    && (forall m | m in messages && messages[m].conversation == id ::
          c.lastMessage.Some? && m <= c.lastMessage.value)
    && (forall u | u in c.receipts :: c.receipts[u] in messages && messages[c.receipts[u]].conversation == id)
  }

  ghost predicate NoOrphans(s: State) {
    forall m | m in s.messages :: m <= s.newest && s.messages[m].conversation in s.conversations
  }

  // No two direct conversations have the same two members.
  ghost predicate OneDirectPerPair(s: State) {
    forall c1, c2 | c1 in s.conversations && c2 in s.conversations && c1 != c2 && !s.conversations[c1].isGroup ::
      !IsDirectOf(s.conversations[c2], s.conversations[c1].users)
  }

  ghost predicate Invariant(s: State) {
    && (forall c | c in s.conversations :: SoundMembers(s.conversations[c]))
    && (forall c | c in s.conversations :: SoundMessages(s.messages, c, s.conversations[c]))
    && NoOrphans(s)
    && OneDirectPerPair(s)
  }

  // ----- Lists -----

  lemma {:induction false} UniqueFacts(ids: seq<Id>)
    ensures Distinct(Unique(ids)) && |Unique(ids)| <= |ids|
    ensures forall u :: u in Unique(ids) <==> u in ids
    ensures ids != [] ==> Unique(ids) != [] && Unique(ids)[0] == ids[0]
  {
    if ids == [] {
    } else {
      UniqueFacts(ids[..|ids| - 1]);
      assert ids == ids[..|ids| - 1] + [ids[|ids| - 1]];
    }
  }

  lemma {:induction false} KeepFacts(ids: seq<Id>, wanted: set<Id>)
    ensures |Keep(ids, wanted)| <= |ids|
    ensures forall u :: u in Keep(ids, wanted) <==> u in ids && u in wanted
    ensures Distinct(ids) ==> Distinct(Keep(ids, wanted))
    ensures ids != [] && ids[0] in wanted ==> Keep(ids, wanted) != [] && Keep(ids, wanted)[0] == ids[0]
  {
    if ids == [] {
    } else {
      var front, last := ids[..|ids| - 1], ids[|ids| - 1];
      KeepFacts(front, wanted);
      assert ids == front + [last];
      assert Distinct(ids) ==> Distinct(front) && last !in front;
    }
  }

  lemma WithoutFacts(ids: seq<Id>, gone: Id)
    ensures |Without(ids, gone)| <= |ids|
    ensures forall u :: u in Without(ids, gone) <==> u in ids && u != gone
    ensures Distinct(ids) ==> Distinct(Without(ids, gone))
  {
    var wanted := (set u | u in ids) - {gone};
    WithoutKeeps(ids, gone, wanted);
    KeepFacts(ids, wanted);
  }

  lemma {:induction false} WithoutKeeps(ids: seq<Id>, gone: Id, wanted: set<Id>)
    requires forall u | u in ids :: u in wanted <==> u != gone
    ensures Without(ids, gone) == Keep(ids, wanted)
  {
    if ids == [] {
    } else {
      assert ids[|ids| - 1] in ids;
      WithoutKeeps(ids[..|ids| - 1], gone, wanted);
    }
  }

  lemma {:induction false} EntriesWithoutFacts(entries: seq<Hidden>, user: Id)
    ensures forall e :: e in EntriesWithout(entries, user) <==> e in entries && e.user != user
    ensures OneEntryEach(entries) ==> OneEntryEach(EntriesWithout(entries, user))
  {
    if entries == [] {
    } else {
      var front, last := entries[..|entries| - 1], entries[|entries| - 1];
      EntriesWithoutFacts(front, user);
      assert entries == front + [last];
      if OneEntryEach(entries) {
        forall e | e in EntriesWithout(front, user)
          ensures e.user != last.user
        {
          assert e in front;
        }
      }
    }
  }

  lemma {:induction false} NewEntriesFacts(ids: seq<Id>, isHidden: bool, now: Instant)
    ensures |NewEntries(ids, isHidden, now)| == |ids|
    ensures forall i | 0 <= i < |ids| :: NewEntries(ids, isHidden, now)[i] == Hidden(ids[i], isHidden, now)
  {
    if ids == [] {
    } else {
      NewEntriesFacts(ids[..|ids| - 1], isHidden, now);
    }
  }

  lemma {:induction false} RestoredFacts(entries: seq<Hidden>)
    ensures |Restored(entries)| == |entries|
    ensures forall i | 0 <= i < |entries| :: Restored(entries)[i] == entries[i].(isHidden := false)
  {
    if entries == [] {
    } else {
      RestoredFacts(entries[..|entries| - 1]);
    }
  }

  lemma {:induction false} SetEntryFacts(entries: seq<Hidden>, user: Id, isHidden: bool, hiddenAt: Option<Instant>)
    ensures |SetEntry(entries, user, isHidden, hiddenAt)| == |entries|
    ensures forall i | 0 <= i < |entries| :: SetEntry(entries, user, isHidden, hiddenAt)[i].user == entries[i].user
  {
    if entries == [] {
    } else {
      SetEntryFacts(entries[..|entries| - 1], user, isHidden, hiddenAt);
    }
  }

  // ----- One handler after the other -----

  // A handler that changes one conversation and no message.
  lemma ReplaceKeeps(s: State, c: Id, conversation: Conversation)
    requires Invariant(s) && c in s.conversations && SoundMembers(conversation)
    requires SoundMessages(s.messages, c, conversation)
    requires conversation.isGroup == s.conversations[c].isGroup
    requires !conversation.isGroup ==> conversation.users == s.conversations[c].users
    ensures Invariant(s.(conversations := s.conversations[c := conversation]))
  {
  }

  lemma PostKeepsMembers(s: State, c: Id, sender: Id, m: Id, isCall: bool)
    requires c in s.conversations && SoundMembers(s.conversations[c])
    ensures SoundMembers(Post(s, c, sender, m, isCall).conversations[c])
  {
    RestoredFacts(s.conversations[c].hiddenHistory);
  }

  lemma PostKeepsMessages(s: State, c: Id, sender: Id, m: Id, isCall: bool, d: Id)
    requires NoOrphans(s) && c in s.conversations && m > s.newest
    requires d in s.conversations && SoundMessages(s.messages, d, s.conversations[d])
    ensures var t := Post(s, c, sender, m, isCall);
      d in t.conversations && SoundMessages(t.messages, d, t.conversations[d])
  {
    var t := Post(s, c, sender, m, isCall);
    assert m !in s.messages;
    if d != c {
      assert t.conversations[d] == s.conversations[d];
    }
  }

  lemma SamePairs(s: State, t: State)
    requires OneDirectPerPair(s) && t.conversations.Keys <= s.conversations.Keys
    requires forall c | c in t.conversations ::
      t.conversations[c].isGroup == s.conversations[c].isGroup && t.conversations[c].users == s.conversations[c].users
    ensures OneDirectPerPair(t)
  {
    forall c1, c2 | c1 in t.conversations && c2 in t.conversations && c1 != c2 && !t.conversations[c1].isGroup
      ensures !IsDirectOf(t.conversations[c2], t.conversations[c1].users)
    {
      assert !IsDirectOf(s.conversations[c2], s.conversations[c1].users);
    }
  }

  lemma PostKeeps(s: State, c: Id, sender: Id, m: Id, isCall: bool)
    requires Invariant(s) && c in s.conversations && m > s.newest
    ensures Invariant(Post(s, c, sender, m, isCall))
  {
    var t := Post(s, c, sender, m, isCall);
    SamePairs(s, t);
    PostKeepsMembers(s, c, sender, m, isCall);
    forall d | d in t.conversations
      ensures SoundMembers(t.conversations[d]) && SoundMessages(t.messages, d, t.conversations[d])
    {
      assert SoundMembers(s.conversations[d]);
      PostKeepsMessages(s, c, sender, m, isCall, d);
    }
  }

  lemma {:induction false} KeepAll(ids: seq<Id>, wanted: set<Id>)
    requires forall u | u in ids :: u in wanted
    ensures Keep(ids, wanted) == ids
  {
    if ids == [] {
    } else {
      KeepAll(ids[..|ids| - 1], wanted);
      assert ids == ids[..|ids| - 1] + [ids[|ids| - 1]];
    }
  }

  // Everyone who was found valid joins, if nobody has joined in the meantime.
  lemma ValidMembersJoin(c: Conversation, memberIds: seq<Id>, eligible: set<Id>)
    ensures var valid := ValidMembers(c, memberIds, eligible);
      && (forall u | u in valid :: u !in c.users)
      && Keep(valid, (set u | u in valid) - (set u | u in c.users)) == valid
  {
    var valid := ValidMembers(c, memberIds, eligible);
    KeepFacts(Unique(memberIds), eligible - (set u | u in c.users));
    KeepAll(valid, (set u | u in valid) - (set u | u in c.users));
  }

  lemma ValidMembersAreDistinct(c: Conversation, memberIds: seq<Id>, eligible: set<Id>)
    ensures Distinct(ValidMembers(c, memberIds, eligible))
  {
    UniqueFacts(memberIds);
    KeepFacts(Unique(memberIds), eligible - (set u | u in c.users));
  }

  lemma AddKeepsMembers(c: Conversation, valid: seq<Id>, now: Instant)
    requires SoundMembers(c) && c.isGroup && |c.users| + |valid| <= MAX_GROUP_MEMBERS
    requires Distinct(valid) && (forall u | u in valid :: u !in c.users)
    ensures SoundMembers(c.(users := c.users + valid, hiddenHistory := c.hiddenHistory + NewEntries(valid, false, now)))
  {
    NewEntriesFacts(valid, false, now);
    forall i | 0 <= i < |valid|
      ensures valid[i] !in c.users
    {
      assert valid[i] in valid;
    }
  }

  // The transaction that adds members keeps the invariant if they are new and distinct and there is room for them.
  lemma CommitAddKeeps(s: State, c: Id, me: Id, valid: seq<Id>, m: Id, now: Instant)
    requires Invariant(s) && c in s.conversations && s.conversations[c].isGroup && m > s.newest
    requires |s.conversations[c].users| + |valid| <= MAX_GROUP_MEMBERS
    requires Distinct(valid) && (forall u | u in valid :: u !in s.conversations[c].users)
    ensures Invariant(CommitAdd(s, c, me, valid, m, now))
  {
    var conversation := s.conversations[c];
    var grown := conversation.(users := conversation.users + valid,
                               hiddenHistory := conversation.hiddenHistory + NewEntries(valid, false, now));
    assert SoundMembers(conversation) && SoundMessages(s.messages, c, conversation);
    KeepAll(valid, (set u | u in valid) - (set u | u in conversation.users));
    AddKeepsMembers(conversation, valid, now);
    ReplaceKeeps(s, c, grown);
    PostKeeps(s.(conversations := s.conversations[c := grown]), c, me, m, false);
  }

  lemma AddKeeps(s: State, e: Event)
    requires Invariant(s) && e.AddEvent? && Plausible(s, e)
    ensures Invariant(Step(s, e))
  {
    if Handle(s, e).Ok? {
      var conversation := s.conversations[e.c];
      ValidMembersJoin(conversation, e.memberIds, e.eligible);
      ValidMembersAreDistinct(conversation, e.memberIds, e.eligible);
      CommitAddKeeps(s, e.c, e.me, ValidMembers(conversation, e.memberIds, e.eligible), e.m, e.now);
    }
  }

  lemma RemoveKeepsMembers(c: Conversation, member: Id)
    requires SoundMembers(c) && c.isGroup && c.admin != Some(member)
    ensures SoundMembers(c.(users := Without(c.users, member),
                            hiddenHistory := EntriesWithout(c.hiddenHistory, member),
                            acceptedBy := Without(c.acceptedBy, member),
                            receipts := c.receipts - {member}))
  {
    WithoutFacts(c.users, member);
    WithoutFacts(c.acceptedBy, member);
    EntriesWithoutFacts(c.hiddenHistory, member);
    var entries := EntriesWithout(c.hiddenHistory, member);
    forall i | 0 <= i < |entries|
      ensures entries[i].user in Without(c.users, member)
    {
      assert entries[i] in c.hiddenHistory;
    }
  }

  // The transaction that removes a member keeps the invariant if that member is not the admin.
  lemma CommitRemoveKeeps(s: State, c: Id, me: Id, member: Id, m: Id)
    requires Invariant(s) && c in s.conversations && s.conversations[c].isGroup && m > s.newest
    requires s.conversations[c].admin != Some(member)
    ensures Invariant(CommitRemove(s, c, me, member, m))
  {
    var conversation := s.conversations[c];
    var shrunk := conversation.(users := Without(conversation.users, member),
                                hiddenHistory := EntriesWithout(conversation.hiddenHistory, member),
                                acceptedBy := Without(conversation.acceptedBy, member),
                                receipts := conversation.receipts - {member});
    assert SoundMembers(conversation) && SoundMessages(s.messages, c, conversation);
    RemoveKeepsMembers(conversation, member);
    ReplaceKeeps(s, c, shrunk);
    PostKeeps(s.(conversations := s.conversations[c := shrunk]), c, me, m, false);
  }

  lemma RemoveKeeps(s: State, e: Event)
    requires Invariant(s) && e.RemoveEvent? && Plausible(s, e)
    ensures Invariant(Step(s, e))
  {
    if Handle(s, e).Ok? {
      CommitRemoveKeeps(s, e.c, e.me, e.member, e.m);
    }
  }

  // The transaction that hands over a group keeps the invariant if the new admin is a member.
  lemma CommitAdminKeeps(s: State, c: Id, me: Id, newAdmin: Id, m: Id)
    requires Invariant(s) && c in s.conversations && s.conversations[c].isGroup && m > s.newest
    requires newAdmin in s.conversations[c].users
    ensures Invariant(CommitAdmin(s, c, me, newAdmin, m))
  {
    var conversation := s.conversations[c].(admin := Some(newAdmin));
    assert SoundMembers(s.conversations[c]) && SoundMessages(s.messages, c, s.conversations[c]);
    ReplaceKeeps(s, c, conversation);
    PostKeeps(s.(conversations := s.conversations[c := conversation]), c, me, m, false);
  }

  lemma ChangeAdminKeeps(s: State, e: Event)
    requires Invariant(s) && e.ChangeAdminEvent? && Plausible(s, e)
    ensures Invariant(Step(s, e))
  {
    if Handle(s, e).Ok? {
      CommitAdminKeeps(s, e.c, e.me, e.newAdmin, e.m);
    }
  }

  lemma DisbandKeeps(s: State, e: Event)
    requires Invariant(s) && e.DisbandEvent?
    ensures Invariant(Step(s, e))
  {
    var t := Step(s, e);
    SamePairs(s, t);
    forall c | c in t.conversations
      ensures SoundMessages(t.messages, c, t.conversations[c])
    {
      assert SoundMessages(s.messages, c, s.conversations[c]);
    }
  }

  lemma HideKeeps(s: State, e: Event)
    requires Invariant(s) && e.HideEvent?
    ensures Invariant(Step(s, e))
  {
    if Handle(s, e).Ok? {
      var before, after := s.conversations[e.c], Step(s, e).conversations[e.c];
      assert SoundMembers(before) && SoundMessages(s.messages, e.c, before);
      HideKeepsMembers(before, after.hiddenHistory, after.acceptedBy, e.user, e.now);
      ReplaceKeeps(s, e.c, after);
    }
  }

  lemma HideKeepsMembers(c: Conversation, entries: seq<Hidden>, accepted: seq<Id>, user: Id, now: Instant)
    requires SoundMembers(c) && user in c.users
    requires entries == if HasEntry(c.hiddenHistory, user) then SetEntry(c.hiddenHistory, user, true, Some(now))
                        else c.hiddenHistory + [Hidden(user, true, now)]
    requires accepted == c.acceptedBy || accepted == Without(c.acceptedBy, user)
    ensures SoundMembers(c.(hiddenHistory := entries, acceptedBy := accepted))
  {
    HideKeepsEntries(c.hiddenHistory, c.users, user, now);
    WithoutFacts(c.acceptedBy, user);
  }

  lemma HideKeepsEntries(entries: seq<Hidden>, users: seq<Id>, user: Id, now: Instant)
    requires OneEntryEach(entries) && EntriesOf(entries, users) && user in users
    ensures var hidden := if HasEntry(entries, user) then SetEntry(entries, user, true, Some(now))
                          else entries + [Hidden(user, true, now)];
      OneEntryEach(hidden) && EntriesOf(hidden, users)
  {
    SetEntryFacts(entries, user, true, Some(now));
  }

  lemma AcceptKeeps(s: State, e: Event)
    requires Invariant(s) && e.AcceptEvent?
    ensures Invariant(Step(s, e))
  {
    if Handle(s, e).Ok? && e.user !in s.conversations[e.c].acceptedBy {
      ReplaceKeeps(s, e.c, Step(s, e).conversations[e.c]);
    }
  }

  lemma SoftDeleteKeeps(s: State, e: Event)
    requires Invariant(s) && e.SoftDeleteEvent?
    ensures Invariant(Step(s, e))
  {
    if Handle(s, e).Ok? {
      var conversation := s.conversations[e.c];
      assert SoundMembers(conversation) && SoundMessages(s.messages, e.c, conversation);
      if conversation.pin == Some(e.m) {
        var unpinned := s.(conversations := s.conversations[e.c := conversation.(pin := None)]);
        ReplaceKeeps(s, e.c, conversation.(pin := None));
        MarkDeletedKeeps(unpinned, e.m);
      } else {
        MarkDeletedKeeps(s, e.m);
      }
    }
  }

  // Deleting a message that its conversation does not pin.
  lemma MarkDeletedKeeps(s: State, m: Id)
    requires Invariant(s) && m in s.messages && s.messages[m].conversation in s.conversations
    requires s.conversations[s.messages[m].conversation].pin != Some(m)
    ensures Invariant(s.(messages := s.messages[m := s.messages[m].(isDeleted := true)]))
  {
    var messages := s.messages[m := s.messages[m].(isDeleted := true)];
    forall c | c in s.conversations
      ensures SoundMessages(messages, c, s.conversations[c])
    {
      assert SoundMessages(s.messages, c, s.conversations[c]);
    }
  }

  lemma PinKeeps(s: State, e: Event)
    requires Invariant(s) && e.PinEvent?
    ensures Invariant(Step(s, e))
  {
    if Handle(s, e).Ok? {
      var before := s.conversations[e.c];
      assert SoundMembers(before) && SoundMessages(s.messages, e.c, before);
      ReplaceKeeps(s, e.c, before.(pin := Some(e.m)));
    }
  }

  lemma UnpinKeeps(s: State, e: Event)
    requires Invariant(s) && e.UnpinEvent?
    ensures Invariant(Step(s, e))
  {
    if Handle(s, e).Ok? {
      var before := s.conversations[e.c];
      assert SoundMembers(before) && SoundMessages(s.messages, e.c, before);
      ReplaceKeeps(s, e.c, before.(pin := None));
    }
  }

  lemma MarkAsReadKeeps(s: State, e: Event)
    requires Invariant(s) && e.MarkAsReadEvent?
    ensures Invariant(Step(s, e))
  {
    if Handle(s, e).Ok? {
      var before := s.conversations[e.c];
      assert SoundMembers(before) && SoundMessages(s.messages, e.c, before);
      ReplaceKeeps(s, e.c, before.(receipts := before.receipts[e.user := e.m]));
    }
  }

  lemma MessageEventKeeps(s: State, e: Event)
    requires Invariant(s) && (e.SendEvent? || e.CallEvent?) && Plausible(s, e)
    ensures Invariant(Step(s, e))
  {
    if Handle(s, e).Ok? {
      PostKeeps(s, e.c, e.user, e.m, e.CallEvent?);
    }
  }

  lemma MembersFacts(me: Id, others: seq<Id>, blocked: set<Id>)
    requires me !in blocked
    ensures var members := Members(me, others, blocked);
      && Distinct(members) && members != [] && members[0] == me && |members| <= |Unique([me] + others)|
      && (forall u :: u in members <==> (u == me || u in others) && u !in blocked)
  {
    var all := [me] + others;
    UniqueFacts(all);
    KeepFacts(Unique(all), (set u | u in all) - blocked);
  }

  // A conversation under a new id, with no message yet.
  lemma CreateKeeps(s: State, c: Id, conversation: Conversation)
    requires Invariant(s) && c !in s.conversations && SoundMembers(conversation)
    requires conversation.pin.None? && conversation.lastMessage.None? && conversation.receipts == map[]
    requires !conversation.isGroup ==> FoundDirect(s, conversation.users, None)
    ensures Invariant(s.(conversations := s.conversations[c := conversation]))
  {
    CreateKeepsPairs(s, c, conversation);
    var t := s.(conversations := s.conversations[c := conversation]);
    forall d | d in t.conversations
      ensures SoundMembers(t.conversations[d]) && SoundMessages(t.messages, d, t.conversations[d])
    {
      if d != c {
        assert SoundMembers(s.conversations[d]) && SoundMessages(s.messages, d, s.conversations[d]);
      }
    }
  }

  lemma CreateKeepsPairs(s: State, c: Id, conversation: Conversation)
    requires OneDirectPerPair(s) && c !in s.conversations
    requires forall d | d in s.conversations :: SoundMembers(s.conversations[d])
    requires SoundMembers(conversation)
    requires !conversation.isGroup ==> FoundDirect(s, conversation.users, None)
    ensures OneDirectPerPair(s.(conversations := s.conversations[c := conversation]))
  {
    forall d | d in s.conversations && !conversation.isGroup && !s.conversations[d].isGroup
      ensures !IsDirectOf(conversation, s.conversations[d].users)
    {
      assert SoundMembers(s.conversations[d]);
      if SameMembers(conversation.users, s.conversations[d].users) {
        PairsMatchBothWays(conversation.users, s.conversations[d].users);
        assert IsDirectOf(s.conversations[d], conversation.users);
      }
    }
  }

  lemma PairsMatchBothWays(users: seq<Id>, members: seq<Id>)
    requires |users| == 2 && Distinct(members) && SameMembers(users, members)
    ensures SameMembers(members, users)
  {
    assert members[0] in users && members[1] in users && members[0] != members[1];
  }

  lemma DirectKeeps(s: State, e: Event)
    requires Invariant(s) && e.DirectEvent? && Plausible(s, e)
    ensures Invariant(Step(s, e))
  {
    if Handle(s, e).Ok? {
      MembersFacts(e.me, e.others, e.answers.blocked);
      var members := Members(e.me, e.others, e.answers.blocked);
      if e.found.Some? {
        var conversation := s.conversations[e.found.value];
        assert members[0] in conversation.users;
        SetEntryFacts(conversation.hiddenHistory, e.me, false, None);
        if IsHiddenFor(conversation.hiddenHistory, e.me) {
          ReplaceKeeps(s, e.found.value, Step(s, e).conversations[e.found.value]);
        }
      } else {
        assert members[1] in members;
        CreateKeeps(s, e.c, Step(s, e).conversations[e.c]);
      }
    }
  }

  lemma GroupKeeps(s: State, e: Event)
    requires Invariant(s) && e.GroupEvent? && Plausible(s, e)
    ensures Invariant(Step(s, e))
  {
    if Handle(s, e).Ok? && e.answers.recentGroup.None? {
      MembersFacts(e.me, e.others, e.answers.blocked);
      WithoutFacts(e.others, e.me);
      UniqueFacts(Without(e.others, e.me));
      KeepFacts(Unique(Without(e.others, e.me)), e.answers.friends);
      CreateKeeps(s, e.c, Step(s, e).conversations[e.c]);
    }
  }

  lemma StepKeepsInvariant(s: State, e: Event)
    requires Invariant(s) && Plausible(s, e)
    ensures Invariant(Step(s, e))
  {
    match e
    case DirectEvent(_, _, _, _, _, _) => DirectKeeps(s, e);
    case GroupEvent(_, _, _, _, _) => GroupKeeps(s, e);
    case AddEvent(_, _, _, _, _, _) => AddKeeps(s, e);
    case RemoveEvent(_, _, _, _) => RemoveKeeps(s, e);
    case ChangeAdminEvent(_, _, _, _, _, _) => ChangeAdminKeeps(s, e);
    case DisbandEvent(_, _) => DisbandKeeps(s, e);
    case AcceptEvent(_, _) => AcceptKeeps(s, e);
    case HideEvent(_, _, _, _) => HideKeeps(s, e);
    case SendEvent(_, _, _, _) => MessageEventKeeps(s, e);
    case CallEvent(_, _, _) => MessageEventKeeps(s, e);
    case SoftDeleteEvent(_, _, _) => SoftDeleteKeeps(s, e);
    case PinEvent(_, _, _) => PinKeeps(s, e);
    case UnpinEvent(_, _, _) => UnpinKeeps(s, e);
    case MarkAsReadEvent(_, _, _) => MarkAsReadKeeps(s, e);
  }

  lemma {:induction false} RunKeepsInvariant(s: State, events: seq<Event>)
    requires Invariant(s) && PlausibleRun(s, events)
    ensures Invariant(Run(s, events))
    decreases |events|
  {
    if events == [] {
    } else {
      StepKeepsInvariant(s, events[0]);
      RunKeepsInvariant(Step(s, events[0]), events[1..]);
    }
  }

  lemma EveryReachableConversationIsSound(events: seq<Event>, c: Id)
    requires PlausibleRun(START, events) && c in Run(START, events).conversations
    ensures SoundMembers(Run(START, events).conversations[c])
    ensures SoundMessages(Run(START, events).messages, c, Run(START, events).conversations[c])
    ensures !Run(START, events).conversations[c].isGroup ==>
              forall d | d in Run(START, events).conversations && d != c ::
                !IsDirectOf(Run(START, events).conversations[d], Run(START, events).conversations[c].users)
  {
    RunKeepsInvariant(START, events);
  }

  // ----- Receipts -----

  predicate Forgets(e: Event, c: Id, user: Id) {
    (e.DisbandEvent? && e.c == c) || (e.RemoveEvent? && e.c == c && e.member == user)
  }

  lemma ReceiptStep(s: State, e: Event, c: Id, user: Id)
    requires Invariant(s) && Plausible(s, e) && !Forgets(e, c, user)
    requires c in s.conversations && user in s.conversations[c].receipts
    ensures c in Step(s, e).conversations && user in Step(s, e).conversations[c].receipts
    ensures s.conversations[c].receipts[user] <= Step(s, e).conversations[c].receipts[user]
  {
    assert SoundMessages(s.messages, c, s.conversations[c]);
    assert s.conversations[c].receipts[user] <= s.newest;
    if Posts(e) || e.MarkAsReadEvent? {
      ReceiptWritten(s, e, c, user);
    } else {
      ReceiptsUntouched(s, e, c);
    }
  }

  lemma ReceiptsUntouched(s: State, e: Event, c: Id)
    requires !Posts(e) && !e.MarkAsReadEvent? && Plausible(s, e) && !(e.DisbandEvent? && e.c == c)
    requires c in s.conversations
    ensures c in Step(s, e).conversations && Step(s, e).conversations[c].receipts == s.conversations[c].receipts
  {
    match e
    case DirectEvent(_, _, _, _, _, _) =>
    case GroupEvent(_, _, _, _, _) =>
    case DisbandEvent(_, _) =>
    case AcceptEvent(_, _) =>
    case HideEvent(_, _, _, _) =>
    case SoftDeleteEvent(_, _, _) =>
    case PinEvent(_, _, _) =>
    case UnpinEvent(_, _, _) =>
  }

  lemma ReceiptWritten(s: State, e: Event, c: Id, user: Id)
    requires Posts(e) || e.MarkAsReadEvent?
    requires Plausible(s, e) && !Forgets(e, c, user)
    requires c in s.conversations && user in s.conversations[c].receipts
    requires s.conversations[c].receipts[user] <= s.newest
    ensures c in Step(s, e).conversations && user in Step(s, e).conversations[c].receipts
    ensures s.conversations[c].receipts[user] <= Step(s, e).conversations[c].receipts[user]
  {
  }

  // As long as the member is not removed, a read receipt stays and never moves back to an older message.
  lemma {:induction false} ReceiptsNeverMoveBack(s: State, events: seq<Event>, c: Id, user: Id)
    requires Invariant(s) && PlausibleRun(s, events) && (forall e | e in events :: !Forgets(e, c, user))
    requires c in s.conversations && user in s.conversations[c].receipts
    ensures c in Run(s, events).conversations && user in Run(s, events).conversations[c].receipts
    ensures s.conversations[c].receipts[user] <= Run(s, events).conversations[c].receipts[user]
    decreases |events|
  {
    if events == [] {
    } else {
      assert events[0] in events;
      ReceiptStep(s, events[0], c, user);
      StepKeepsInvariant(s, events[0]);
      ReceiptsNeverMoveBack(Step(s, events[0]), events[1..], c, user);
    }
  }

  // A member who leaves on their own is given a receipt again by the system message about it.
  lemma LeavingWritesAReceipt(s: State, c: Id, me: Id, m: Id)
    requires RemoveMember(s, c, me, me, m).Ok?
    ensures var left := RemoveMember(s, c, me, me, m).value.conversations[c];
      me !in left.users && me in left.receipts && left.receipts[me] == m
  {
    WithoutFacts(s.conversations[c].users, me);
  }
}
