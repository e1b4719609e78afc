// Conversation handlers that check a conversation and commit later, with any other commits in between:
// src/modules/conversations/ (conversation-command, -member, -state, -group-admin .service.ts) and
// src/modules/messages/ (message-command, message-pin .service.ts). Every commit is one update or transaction.
module HandlerCommits {
  import opened Common
  import opened Sequences
  import C = Conversations
  import opened Inv = ConversationInvariants

  // What a handler that has passed its checks is going to write.
  datatype Commit =
    | AddCommit(c: Id, me: Id, valid: seq<Id>)
    | RemoveCommit(c: Id, me: Id, member: Id)
    | AdminCommit(c: Id, me: Id, newAdmin: Id)
    | DisbandCommit(c: Id)
    | AcceptCommit(c: Id, user: Id)
    | HideCommit(c: Id, user: Id, hadEntry: bool, withdraws: bool)
    | PostCommit(c: Id, sender: Id, isCall: bool)
    | DeleteCommit(c: Id, m: Id, clearsPin: bool)
    | PinCommit(c: Id, m: Id)
    | UnpinCommit(c: Id)
    | ReadCommit(c: Id, user: Id, m: Id)
    | RestoreCommit(c: Id, me: Id)
    | CreateCommit(conversation: C.Conversation)

  predicate Posts(k: Commit) {
    k.AddCommit? || k.RemoveCommit? || k.AdminCommit? || k.PostCommit?
  }

  // ----- Checking -----

  function DirectChat(members: seq<Id>, friends: set<Id>, now: Instant): C.Conversation
    requires |members| == 2
  {
    C.Conversation(false, members, if members[1] in friends then [members[0], members[1]] else [members[0]],
                   None, None, None, [C.Hidden(members[1], true, now)], map[])
  }

  function GroupChat(me: Id, others: seq<Id>, a: C.Answers): C.Conversation {
    C.Conversation(true, C.Members(me, others, a.blocked), [me] + C.Keep(C.Unique(C.Without(others, me)), a.friends),
                   Some(me), None, None, [], map[])
  }

  // What the checks of a handler make of it; None if nothing is left to write.
  function Prepared(s: C.State, e: C.Event): Option<Commit>
    requires C.Handle(s, e).Ok?
  {
    match e
    case DirectEvent(c, me, others, a, found, now) =>
      if found.Some? && found.value in s.conversations then
        if C.IsHiddenFor(s.conversations[found.value].hiddenHistory, me) then Some(RestoreCommit(found.value, me))
        else None
      else Some(CreateCommit(DirectChat(C.Members(me, others, a.blocked), a.friends, now)))
    case GroupEvent(c, me, others, hasName, a) =>
      if a.recentGroup.Some? then None else Some(CreateCommit(GroupChat(me, others, a)))
    case AddEvent(c, me, memberIds, eligible, m, now) =>
      Some(AddCommit(c, me, C.ValidMembers(s.conversations[c], memberIds, eligible)))
    case RemoveEvent(c, me, member, m) => Some(RemoveCommit(c, me, member))
    case ChangeAdminEvent(c, me, newAdmin, usable, blocked, m) => Some(AdminCommit(c, me, newAdmin))
    case DisbandEvent(c, me) => Some(DisbandCommit(c))
    case AcceptEvent(c, user) =>
      if user in s.conversations[c].acceptedBy then None else Some(AcceptCommit(c, user))
    case HideEvent(c, user, isFriend, now) =>
      Some(HideCommit(c, user, C.HasEntry(s.conversations[c].hiddenHistory, user),
                      !s.conversations[c].isGroup && !isFriend))
    case SendEvent(c, user, m, allowed) => Some(PostCommit(c, user, false))
    case CallEvent(c, user, m) => Some(PostCommit(c, user, true))
    case SoftDeleteEvent(c, m, user) => Some(DeleteCommit(c, m, s.conversations[c].pin == Some(m)))
    case PinEvent(c, m, user) => Some(PinCommit(c, m))
    case UnpinEvent(c, m, user) => Some(UnpinCommit(c))
    case MarkAsReadEvent(c, user, m) => Some(ReadCommit(c, user, m))
  }

  // ----- Committing -----

  function Replace(s: C.State, c: Id, conversation: C.Conversation): C.State {
    s.(conversations := s.conversations[c := conversation])
  }

  // hiddenHistory updates the visible entry that was there when it looked, or pushes one if there still is none;
  // otherwise its filter finds nothing.
  function Hidden(conversation: C.Conversation, k: Commit, now: Instant): C.Conversation
    requires k.HideCommit?
  {
    var entries := conversation.hiddenHistory;
    var accepted := if k.withdraws then C.Without(conversation.acceptedBy, k.user) else conversation.acceptedBy;
    if k.hadEntry then
      if C.HasEntry(entries, k.user) && !C.IsHiddenFor(entries, k.user)
      then conversation.(hiddenHistory := C.SetEntry(entries, k.user, true, Some(now)), acceptedBy := accepted)
      else conversation
    else if C.HasEntry(entries, k.user) then conversation
    else conversation.(hiddenHistory := entries + [C.Hidden(k.user, true, now)], acceptedBy := accepted)
  }

  function Restored(conversation: C.Conversation, me: Id): C.Conversation {
    conversation.(hiddenHistory := C.SetEntry(conversation.hiddenHistory, me, false, None),
                  acceptedBy := conversation.acceptedBy + [me])
  }

  function Deleted(s: C.State, c: Id, m: Id): C.State {
    if m in s.messages && s.messages[m].conversation == c
    then s.(messages := s.messages[m := s.messages[m].(isDeleted := true)]) else s
  }

  // `id` is the id of the new message or conversation. An update of a conversation that is gone writes nothing,
  // but a message that is sent to it is stored all the same.
  function Apply(s: C.State, k: Commit, id: Id, now: Instant): C.State {
    if k.CreateCommit? then Replace(s, id, k.conversation)
    else if k.c !in s.conversations then
      if k.PostCommit?
      then s.(messages := s.messages[id := C.Message(k.c, k.sender, false, k.isCall)], newest := id)
      else if k.DeleteCommit? then Deleted(s, k.c, k.m)
      else s
    else
      var conversation := s.conversations[k.c];
      match k
      case AddCommit(c, me, valid) => C.CommitAdd(s, c, me, valid, id, now)
      case RemoveCommit(c, me, member) => C.CommitRemove(s, c, me, member, id)
      case AdminCommit(c, me, newAdmin) => C.CommitAdmin(s, c, me, newAdmin, id)
      case DisbandCommit(c) =>
        s.(conversations := s.conversations - {c},
           messages := map m | m in s.messages && s.messages[m].conversation != c :: s.messages[m])
      case AcceptCommit(c, user) =>
        Replace(s, c, conversation.(acceptedBy := conversation.acceptedBy + [user]))
      case HideCommit(c, _, _, _) => Replace(s, c, Hidden(conversation, k, now))
      case PostCommit(c, sender, isCall) => C.Post(s, c, sender, id, isCall)
      case DeleteCommit(c, m, clearsPin) =>
        Deleted(if clearsPin then Replace(s, c, conversation.(pin := None)) else s, c, m)
      case PinCommit(c, m) => Replace(s, c, conversation.(pin := Some(m)))
      case UnpinCommit(c) => Replace(s, c, conversation.(pin := None))
      case ReadCommit(c, user, m) => Replace(s, c, conversation.(receipts := conversation.receipts[user := m]))
      case RestoreCommit(c, me) => Replace(s, c, Restored(conversation, me))
  }

  // ----- A handler with nothing between its checks and its commit -----

  function NewId(e: C.Event): Id {
    match e
    case DirectEvent(c, _, _, _, _, _) => c
    case GroupEvent(c, _, _, _, _) => c
    case AddEvent(_, _, _, _, m, _) => m
    case RemoveEvent(_, _, _, m) => m
    case ChangeAdminEvent(_, _, _, _, _, m) => m
    case SendEvent(_, _, m, _) => m
    case CallEvent(_, _, m) => m
    case _ => 0
  }

  function Now(e: C.Event): Instant {
    if e.AddEvent? || e.HideEvent? || e.DirectEvent? then e.now else 0
  }

  predicate IsCheckAndCommit(s: C.State, e: C.Event) {
    C.Handle(s, e).Ok? ==>
      C.Handle(s, e).value
      == if Prepared(s, e).None? then s else Apply(s, Prepared(s, e).value, NewId(e), Now(e))
  }

  lemma DirectIsCheckAndCommit(s: C.State, e: C.Event)
    requires e.DirectEvent? && e.me !in e.answers.blocked && C.Handle(s, e).Ok?
    ensures IsCheckAndCommit(s, e)
  {
    MembersFacts(e.me, e.others, e.answers.blocked);
  }

  lemma MemberHandlersAreCheckAndCommit(s: C.State, e: C.Event)
    requires e.GroupEvent? || e.AddEvent? || e.RemoveEvent? || e.ChangeAdminEvent? || e.DisbandEvent?
    ensures IsCheckAndCommit(s, e)
  {
  }

  lemma StateHandlersAreCheckAndCommit(s: C.State, e: C.Event)
    requires e.AcceptEvent? || e.HideEvent? || e.SendEvent? || e.CallEvent? || e.MarkAsReadEvent?
    ensures IsCheckAndCommit(s, e)
  {
  }

  lemma PinHandlersAreCheckAndCommit(s: C.State, e: C.Event)
    requires e.SoftDeleteEvent? || e.PinEvent? || e.UnpinEvent?
    ensures IsCheckAndCommit(s, e)
  {
  }

  lemma UndisturbedHandlerIsCheckAndCommit(s: C.State, e: C.Event)
    requires C.Plausible(s, e) && C.Handle(s, e).Ok?
    ensures C.Handle(s, e).value
         == if Prepared(s, e).None? then s else Apply(s, Prepared(s, e).value, NewId(e), Now(e))
  {
    assert IsCheckAndCommit(s, e) by {
      if e.DirectEvent? {
        DirectIsCheckAndCommit(s, e);
      } else if e.GroupEvent? || e.AddEvent? || e.RemoveEvent? || e.ChangeAdminEvent? || e.DisbandEvent? {
        MemberHandlersAreCheckAndCommit(s, e);
      } else if e.SoftDeleteEvent? || e.PinEvent? || e.UnpinEvent? {
        PinHandlersAreCheckAndCommit(s, e);
      } else {
        StateHandlersAreCheckAndCommit(s, e);
      }
    }
  }

  // ----- Which commits keep the invariant -----

  // What the checks have established once and for all.
  ghost predicate Sane(s: C.State, k: Commit) {
    if k.CreateCommit? then
      SoundMembers(k.conversation) && k.conversation.pin.None? && k.conversation.lastMessage.None?
      && k.conversation.receipts == map[]
    else
      k.c in s.conversations ==>
        && (k.AddCommit? ==> s.conversations[k.c].isGroup && Distinct(k.valid))
        && (k.RemoveCommit? || k.AdminCommit? ==> s.conversations[k.c].isGroup)
        && (k.DeleteCommit? || k.PinCommit? || k.ReadCommit? ==>
              k.m in s.messages && s.messages[k.m].conversation == k.c)
  }

  function Joining(conversation: C.Conversation, valid: seq<Id>): seq<Id> {
    C.Keep(valid, (set u | u in valid) - (set u | u in conversation.users))
  }

  // What a commit must still find.
  predicate InPlace(s: C.State, k: Commit) {
    if k.CreateCommit? then k.conversation.isGroup || C.FoundDirect(s, k.conversation.users, None)
    else if k.c !in s.conversations then !k.PostCommit?
    else
      var conversation := s.conversations[k.c];
      match k
      case AddCommit(_, _, valid) =>
        && (forall v | v in valid :: !C.HasEntry(conversation.hiddenHistory, v))
        && |conversation.users| + |Joining(conversation, valid)| <= C.MAX_GROUP_MEMBERS
      case RemoveCommit(_, _, member) => conversation.admin != Some(member)
      case AdminCommit(_, _, newAdmin) => newAdmin in conversation.users
      case AcceptCommit(_, user) => user in conversation.users
      case HideCommit(_, user, hadEntry, _) =>
        hadEntry || C.HasEntry(conversation.hiddenHistory, user) || user in conversation.users
      case DeleteCommit(_, m, clearsPin) => clearsPin || conversation.pin != Some(m)
      case PinCommit(_, m) => m in s.messages && !s.messages[m].isDeleted
      case RestoreCommit(_, me) => me in conversation.users
      case _ => true
  }

  // The new id is new: message ids increase, and conversation ids are not used twice.
  predicate Fresh(s: C.State, k: Commit, id: Id) {
    && (Posts(k) ==> id > s.newest)
    && (k.CreateCommit? ==> id !in s.conversations)
  }

  lemma ReplaceKeepsIff(s: C.State, c: Id, conversation: C.Conversation)
    requires Invariant(s) && c in s.conversations && conversation.isGroup == s.conversations[c].isGroup
    requires !conversation.isGroup ==> conversation.users == s.conversations[c].users
    ensures Invariant(Replace(s, c, conversation)) <==>
      SoundMembers(conversation) && SoundMessages(s.messages, c, conversation)
  {
    var t := Replace(s, c, conversation);
    if SoundMembers(conversation) && SoundMessages(s.messages, c, conversation) {
      ReplaceKeeps(s, c, conversation);
    } else {
      assert t.conversations[c] == conversation;
    }
  }

  // A transaction that changes the members of a group and posts a message about it.
  lemma ReplaceAndPostKeepsIff(s: C.State, c: Id, conversation: C.Conversation, me: Id, m: Id)
    requires Invariant(s) && c in s.conversations && m > s.newest
    requires conversation.isGroup && s.conversations[c].isGroup && SoundMessages(s.messages, c, conversation)
    ensures Invariant(C.Post(Replace(s, c, conversation), c, me, m, false)) <==> SoundMembers(conversation)
  {
    var t := Replace(s, c, conversation);
    if SoundMembers(conversation) {
      ReplaceKeeps(s, c, conversation);
      PostKeeps(t, c, me, m, false);
    } else {
      RestoredFacts(conversation.hiddenHistory);
      var after := C.Post(t, c, me, m, false).conversations[c];
      assert after.users == conversation.users && |after.hiddenHistory| == |conversation.hiddenHistory|;
      assert forall i | 0 <= i < |conversation.hiddenHistory| ::
          after.hiddenHistory[i].user == conversation.hiddenHistory[i].user;
      assert !SoundMembers(after);
    }
  }

  lemma RemoveIff(s: C.State, k: Commit, id: Id)
    requires Invariant(s) && k.RemoveCommit? && Sane(s, k) && Fresh(s, k, id) && k.c in s.conversations
    ensures Invariant(Apply(s, k, id, 0)) <==> InPlace(s, k)
  {
    if s.conversations[k.c].admin != Some(k.member) {
      CommitRemoveKeeps(s, k.c, k.me, k.member, id);
    } else {
      WithoutFacts(s.conversations[k.c].users, k.member);
      assert !SoundMembers(C.CommitRemove(s, k.c, k.me, k.member, id).conversations[k.c]);
    }
  }

  lemma AdminIff(s: C.State, k: Commit, id: Id)
    requires Invariant(s) && k.AdminCommit? && Sane(s, k) && Fresh(s, k, id) && k.c in s.conversations
    ensures Invariant(Apply(s, k, id, 0)) <==> InPlace(s, k)
  {
    if k.newAdmin in s.conversations[k.c].users {
      CommitAdminKeeps(s, k.c, k.me, k.newAdmin, id);
    } else {
      assert !SoundMembers(C.CommitAdmin(s, k.c, k.me, k.newAdmin, id).conversations[k.c]);
    }
  }

  // Those who join are new, each once.
  lemma JoiningFacts(c: C.Conversation, valid: seq<Id>)
    requires Distinct(c.users) && Distinct(valid)
    ensures Distinct(c.users + Joining(c, valid))
    ensures forall v | v in valid :: v in c.users + Joining(c, valid)
  {
    var joining := Joining(c, valid);
    KeepFacts(valid, (set u | u in valid) - (set u | u in c.users));
    forall i, j | 0 <= i < j < |c.users + joining|
      ensures (c.users + joining)[i] != (c.users + joining)[j]
    {
      assert i < |c.users| <= j ==> c.users[i] in c.users && joining[j - |c.users|] in joining;
    }
  }

  lemma NewEntriesIff(entries: seq<C.Hidden>, valid: seq<Id>, now: Instant)
    requires OneEntryEach(entries) && Distinct(valid)
    ensures OneEntryEach(entries + C.NewEntries(valid, false, now)) <==>
      forall v | v in valid :: !C.HasEntry(entries, v)
  {
    var all := entries + C.NewEntries(valid, false, now);
    NewEntriesFacts(valid, false, now);
    forall v | v in valid && C.HasEntry(entries, v)
      ensures !OneEntryEach(all)
    {
      var i :| 0 <= i < |entries| && entries[i].user == v;
      var j :| 0 <= j < |valid| && valid[j] == v;
      assert all[i].user == all[|entries| + j].user;
    }
    if forall v | v in valid :: !C.HasEntry(entries, v) {
      forall i, j | 0 <= i < j < |all|
        ensures all[i].user != all[j].user
      {
        if i < |entries| <= j {
          assert valid[j - |entries|] in valid;
        }
      }
    }
  }

  lemma AddMembersIff(c: C.Conversation, valid: seq<Id>, now: Instant)
    requires SoundMembers(c) && c.isGroup && Distinct(valid)
    ensures var grown := c.(users := c.users + Joining(c, valid),
                            hiddenHistory := c.hiddenHistory + C.NewEntries(valid, false, now));
      SoundMembers(grown) <==>
        && (forall v | v in valid :: !C.HasEntry(c.hiddenHistory, v))
        && |c.users| + |Joining(c, valid)| <= C.MAX_GROUP_MEMBERS
  {
    JoiningFacts(c, valid);
    NewEntriesIff(c.hiddenHistory, valid, now);
    NewEntriesFacts(valid, false, now);
    forall j | 0 <= j < |valid|
      ensures valid[j] in c.users + Joining(c, valid)
    {
      assert valid[j] in valid;
    }
  }

  lemma AddIff(s: C.State, k: Commit, id: Id, now: Instant)
    requires Invariant(s) && k.AddCommit? && Sane(s, k) && Fresh(s, k, id) && k.c in s.conversations
    ensures Invariant(Apply(s, k, id, now)) <==> InPlace(s, k)
  {
    var conversation := s.conversations[k.c];
    var grown := conversation.(users := conversation.users + Joining(conversation, k.valid),
                               hiddenHistory := conversation.hiddenHistory + C.NewEntries(k.valid, false, now));
    assert SoundMembers(conversation) && SoundMessages(s.messages, k.c, conversation);
    AddMembersIff(conversation, k.valid, now);
    ReplaceAndPostKeepsIff(s, k.c, grown, k.me, id);
  }

  lemma AcceptIff(s: C.State, k: Commit)
    requires Invariant(s) && k.AcceptCommit? && k.c in s.conversations
    ensures Invariant(Apply(s, k, 0, 0)) <==> InPlace(s, k)
  {
    var before := s.conversations[k.c];
    assert SoundMembers(before) && SoundMessages(s.messages, k.c, before);
    var after := before.(acceptedBy := before.acceptedBy + [k.user]);
    assert k.user in after.acceptedBy;
    ReplaceKeepsIff(s, k.c, after);
  }

  lemma RestoreIff(s: C.State, k: Commit)
    requires Invariant(s) && k.RestoreCommit? && k.c in s.conversations
    ensures Invariant(Apply(s, k, 0, 0)) <==> InPlace(s, k)
  {
    var before := s.conversations[k.c];
    assert SoundMembers(before) && SoundMessages(s.messages, k.c, before);
    SetEntryFacts(before.hiddenHistory, k.me, false, None);
    var after := Restored(before, k.me);
    assert k.me in after.acceptedBy;
    ReplaceKeepsIff(s, k.c, after);
  }

  lemma HideMembersIff(c: C.Conversation, k: Commit, now: Instant)
    requires SoundMembers(c) && k.HideCommit?
    ensures SoundMembers(Hidden(c, k, now)) <==>
      k.hadEntry || C.HasEntry(c.hiddenHistory, k.user) || k.user in c.users
  {
    SetEntryFacts(c.hiddenHistory, k.user, true, Some(now));
    WithoutFacts(c.acceptedBy, k.user);
    var pushed := c.hiddenHistory + [C.Hidden(k.user, true, now)];
    assert pushed[|c.hiddenHistory|].user == k.user;
  }

  lemma HideIff(s: C.State, k: Commit, now: Instant)
    requires Invariant(s) && k.HideCommit? && k.c in s.conversations
    ensures Invariant(Apply(s, k, 0, now)) <==> InPlace(s, k)
  {
    var before := s.conversations[k.c];
    assert SoundMembers(before) && SoundMessages(s.messages, k.c, before);
    HideMembersIff(before, k, now);
    ReplaceKeepsIff(s, k.c, Hidden(before, k, now));
  }

  lemma PinIff(s: C.State, k: Commit)
    requires Invariant(s) && k.PinCommit? && Sane(s, k) && k.c in s.conversations
    ensures Invariant(Apply(s, k, 0, 0)) <==> InPlace(s, k)
  {
    var before := s.conversations[k.c];
    assert SoundMembers(before) && SoundMessages(s.messages, k.c, before);
    ReplaceKeepsIff(s, k.c, before.(pin := Some(k.m)));
  }

  lemma UnpinKeepsAll(s: C.State, k: Commit)
    requires Invariant(s) && k.UnpinCommit? && k.c in s.conversations
    ensures Invariant(Apply(s, k, 0, 0))
  {
    var before := s.conversations[k.c];
    assert SoundMembers(before) && SoundMessages(s.messages, k.c, before);
    ReplaceKeepsIff(s, k.c, before.(pin := None));
  }

  lemma ReadKeepsAll(s: C.State, k: Commit)
    requires Invariant(s) && k.ReadCommit? && Sane(s, k) && k.c in s.conversations
    ensures Invariant(Apply(s, k, 0, 0))
  {
    var before := s.conversations[k.c];
    assert SoundMembers(before) && SoundMessages(s.messages, k.c, before);
    ReplaceKeepsIff(s, k.c, before.(receipts := before.receipts[k.user := k.m]));
  }

  lemma DeleteIff(s: C.State, k: Commit)
    requires Invariant(s) && k.DeleteCommit? && Sane(s, k) && k.c in s.conversations
    ensures Invariant(Apply(s, k, 0, 0)) <==> InPlace(s, k)
  {
    var before := s.conversations[k.c];
    assert SoundMembers(before) && SoundMessages(s.messages, k.c, before);
    var unpinned := if k.clearsPin then Replace(s, k.c, before.(pin := None)) else s;
    if k.clearsPin {
      ReplaceKeepsIff(s, k.c, before.(pin := None));
    }
    if unpinned.conversations[k.c].pin != Some(k.m) {
      MarkDeletedKeeps(unpinned, k.m);
    } else {
      assert !SoundMessages(Deleted(unpinned, k.c, k.m).messages, k.c, before);
    }
  }

  lemma CreateIff(s: C.State, k: Commit, id: Id)
    requires Invariant(s) && k.CreateCommit? && Sane(s, k) && Fresh(s, k, id)
    ensures Invariant(Apply(s, k, id, 0)) <==> InPlace(s, k)
  {
    var t := Replace(s, id, k.conversation);
    if k.conversation.isGroup || C.FoundDirect(s, k.conversation.users, None) {
      CreateKeeps(s, id, k.conversation);
    } else {
      var c :| c in s.conversations && C.IsDirectOf(s.conversations[c], k.conversation.users);
      assert t.conversations[c] == s.conversations[c] && t.conversations[id] == k.conversation;
    }
  }

  // A commit whose conversation is gone.
  lemma GoneIff(s: C.State, k: Commit, id: Id, now: Instant)
    requires Invariant(s) && !k.CreateCommit? && Fresh(s, k, id) && k.c !in s.conversations
    ensures Invariant(Apply(s, k, id, now)) <==> InPlace(s, k)
  {
    if k.PostCommit? {
      assert Apply(s, k, id, now).messages[id].conversation == k.c;
    } else {
      assert Apply(s, k, id, now) == s;
    }
  }

  lemma DisbandKeepsAll(s: C.State, k: Commit, id: Id, now: Instant)
    requires Invariant(s) && k.DisbandCommit? && k.c in s.conversations
    ensures Invariant(Apply(s, k, id, now))
  {
    var t := Apply(s, k, id, now);
    SamePairs(s, t);
    forall c | c in t.conversations
      ensures SoundMessages(t.messages, c, t.conversations[c])
    {
      assert SoundMessages(s.messages, c, s.conversations[c]);
    }
  }

  lemma CommitKeepsIff(s: C.State, k: Commit, id: Id, now: Instant)
    requires Invariant(s) && Sane(s, k) && Fresh(s, k, id)
    ensures Invariant(Apply(s, k, id, now)) <==> InPlace(s, k)
  {
    if k.CreateCommit? {
      CreateIff(s, k, id);
    } else if k.c !in s.conversations {
      GoneIff(s, k, id, now);
    } else {
      match k
      case AddCommit(_, _, _) => AddIff(s, k, id, now);
      case RemoveCommit(_, _, _) => RemoveIff(s, k, id);
      case AdminCommit(_, _, _) => AdminIff(s, k, id);
      case DisbandCommit(_) => DisbandKeepsAll(s, k, id, now);
      case AcceptCommit(_, _) => AcceptIff(s, k);
      case HideCommit(_, _, _, _) => HideIff(s, k, now);
      case PostCommit(c, sender, isCall) => PostKeeps(s, c, sender, id, isCall);
      case DeleteCommit(_, _, _) => DeleteIff(s, k);
      case PinCommit(_, _) => PinIff(s, k);
      case UnpinCommit(_) => UnpinKeepsAll(s, k);
      case ReadCommit(_, _, _) => ReadKeepsAll(s, k);
      case RestoreCommit(_, _) => RestoreIff(s, k);
    }
  }

  // ----- Runs -----

  // `used` holds every conversation id handed out so far, `commits` the handlers that have passed their checks.
  datatype State = State(base: C.State, used: set<Id>, commits: map<Id, Commit>)

  datatype Event =
    | Check(op: Id, event: C.Event)
    | Write(op: Id, id: Id, now: Instant)

  const START := State(C.START, {}, map[])

  // Queries are answered truthfully, nobody blocks themselves or is friend and blocked at once.
  predicate Truthful(s: C.State, e: C.Event) {
    && (e.DirectEvent? || e.GroupEvent? ==>
          e.me !in e.answers.blocked && forall u | u in e.answers.friends :: u !in e.answers.blocked)
    && (e.DirectEvent? ==> C.FoundDirect(s, C.Members(e.me, e.others, e.answers.blocked), e.found))
  }

  function StepCheck(s: State, op: Id, e: C.Event): State {
    if op in s.commits || !Truthful(s.base, e) || C.Handle(s.base, e).Err? || Prepared(s.base, e).None? then s
    else s.(commits := s.commits[op := Prepared(s.base, e).value])
  }

  predicate Writes(s: State, op: Id, id: Id) {
    op in s.commits && Fresh(s.base, s.commits[op], id) && (s.commits[op].CreateCommit? ==> id !in s.used)
  }

  function StepWrite(s: State, op: Id, id: Id, now: Instant): State {
    if !Writes(s, op, id) then s
    else
      State(Apply(s.base, s.commits[op], id, now),
            if s.commits[op].CreateCommit? then s.used + {id} else s.used,
            s.commits - {op})
  }

  function Step(s: State, e: Event): State {
    match e
    case Check(op, event) => StepCheck(s, op, event)
    case Write(op, id, now) => StepWrite(s, op, id, now)
  }

  ghost predicate Orderly(s: State) {
    && s.base.conversations.Keys <= s.used
    && (forall op | op in s.commits :: Sane(s.base, s.commits[op]))
    && (forall op | op in s.commits && !s.commits[op].CreateCommit? :: s.commits[op].c in s.used)
  }

  // ----- What has been checked stays checked, as far as it can -----

  lemma PreparedIsSane(s: C.State, e: C.Event)
    requires Invariant(s) && Truthful(s, e) && C.Handle(s, e).Ok? && Prepared(s, e).Some?
    ensures var k := Prepared(s, e).value;
      Sane(s, k) && (!k.CreateCommit? ==> k.c in s.conversations)
  {
    if e.DirectEvent? {
      DirectIsSane(s, e);
    } else if e.GroupEvent? {
      GroupIsSane(s, e);
    } else if e.AddEvent? {
      ValidMembersAreDistinct(s.conversations[e.c], e.memberIds, e.eligible);
    } else {
      OthersAreSane(s, e);
    }
  }

  lemma OthersAreSane(s: C.State, e: C.Event)
    requires !e.DirectEvent? && !e.GroupEvent? && !e.AddEvent? && C.Handle(s, e).Ok? && Prepared(s, e).Some?
    ensures var k := Prepared(s, e).value;
      !k.CreateCommit? && Sane(s, k) && k.c in s.conversations
  {
  }

  lemma DirectIsSane(s: C.State, e: C.Event)
    requires e.DirectEvent? && Truthful(s, e) && C.Handle(s, e).Ok? && Prepared(s, e).Some?
    ensures var k := Prepared(s, e).value;
      Sane(s, k) && (!k.CreateCommit? ==> k.c in s.conversations)
  {
    MembersFacts(e.me, e.others, e.answers.blocked);
  }

  lemma GroupIsSane(s: C.State, e: C.Event)
    requires e.GroupEvent? && Truthful(s, e) && C.Handle(s, e).Ok? && Prepared(s, e).Some?
    ensures Prepared(s, e).value.CreateCommit? && Sane(s, Prepared(s, e).value)
  {
    MembersFacts(e.me, e.others, e.answers.blocked);
    WithoutFacts(e.others, e.me);
    UniqueFacts(C.Without(e.others, e.me));
    KeepFacts(C.Unique(C.Without(e.others, e.me)), e.answers.friends);
    var group := GroupChat(e.me, e.others, e.answers);
    assert Within(group.acceptedBy, group.users);
    assert SoundMembers(group);
  }

  // Nothing changes the kind of a conversation or the conversation of a message.
  ghost predicate Stays(s: C.State, t: C.State, c: Id) {
    && (c in t.conversations ==> c in s.conversations && t.conversations[c].isGroup == s.conversations[c].isGroup)
    && (c in t.conversations ==> forall m | m in s.messages && s.messages[m].conversation == c ::
          m in t.messages && t.messages[m].conversation == c)
  }

  lemma ApplyStays(s: C.State, k: Commit, id: Id, now: Instant, c: Id)
    requires NoOrphans(s) && Fresh(s, k, id) && (k.CreateCommit? ==> c != id)
    ensures Stays(s, Apply(s, k, id, now), c)
  {
  }

  lemma StaysSane(s: C.State, t: C.State, k: Commit)
    requires Sane(s, k) && (!k.CreateCommit? ==> Stays(s, t, k.c))
    ensures Sane(t, k)
  {
  }

  lemma CheckStaysOrderly(s: State, op: Id, e: C.Event)
    requires Invariant(s.base) && Orderly(s)
    ensures Orderly(StepCheck(s, op, e)) && StepCheck(s, op, e).base == s.base
  {
    if StepCheck(s, op, e) != s {
      PreparedIsSane(s.base, e);
    }
  }

  lemma WriteStaysOrderly(s: State, op: Id, id: Id, now: Instant)
    requires Invariant(s.base) && Orderly(s)
    ensures Orderly(StepWrite(s, op, id, now))
  {
    if Writes(s, op, id) {
      var k, t := s.commits[op], StepWrite(s, op, id, now);
      forall c | c in t.base.conversations
        ensures c in t.used
      {
        if !(k.CreateCommit? && c == id) {
          ApplyStays(s.base, k, id, now, c);
        }
      }
      forall o | o in t.commits
        ensures Sane(t.base, t.commits[o])
      {
        if !t.commits[o].CreateCommit? {
          assert s.commits[o].c in s.used;
          ApplyStays(s.base, k, id, now, t.commits[o].c);
        }
        StaysSane(s.base, t.base, t.commits[o]);
      }
    }
  }

  // A commit that no longer finds what its checks saw and its update does not ask for again.
  predicate OutOfPlace(s: State, e: Event) {
    e.Write? && Writes(s, e.op, e.id) && !InPlace(s.base, s.commits[e.op])
  }

  lemma StepKeepsIff(s: State, e: Event)
    requires Invariant(s.base) && Orderly(s)
    ensures Invariant(Step(s, e).base) <==> !OutOfPlace(s, e)
    ensures Orderly(Step(s, e))
  {
    match e
    case Check(op, event) => CheckStaysOrderly(s, op, event);
    case Write(op, id, now) =>
      WriteStaysOrderly(s, op, id, now);
      if Writes(s, op, id) {
        CommitKeepsIff(s.base, s.commits[op], id, now);
      }
  }

  ghost predicate SoundThroughout(s: State, events: seq<Event>)
    decreases |events|
  {
    Invariant(s.base) && (events == [] || SoundThroughout(Step(s, events[0]), events[1..]))
  }

  predicate NeverOutOfPlace(s: State, events: seq<Event>)
    decreases |events|
  {
    events == [] || (!OutOfPlace(s, events[0]) && NeverOutOfPlace(Step(s, events[0]), events[1..]))
  }

  lemma {:induction false} SoundThroughoutFrom(s: State, events: seq<Event>)
    requires Invariant(s.base) && Orderly(s)
    ensures SoundThroughout(s, events) <==> NeverOutOfPlace(s, events)
    decreases |events|
  {
    if events == [] {
    } else {
      StepKeepsIff(s, events[0]);
      if !OutOfPlace(s, events[0]) {
        SoundThroughoutFrom(Step(s, events[0]), events[1..]);
      }
    }
  }

  // In every run of checks and commits, by any number of handlers crossing in any way, the conversations are sound
  // throughout if and only if every commit still finds what it needs.
  lemma SoundThroughoutIff(events: seq<Event>)
    ensures SoundThroughout(START, events) <==> NeverOutOfPlace(START, events)
  {
    SoundThroughoutFrom(START, events);
  }
}
