// Conversations and their messages, each handler one step: src/modules/conversations/
// (conversation-command, -member, -state, -group-admin, -access .service.ts) and
// src/modules/messages/ (message-command, message-pin .service.ts).
module Conversations {
  import opened Common

  const MAX_GROUP_MEMBERS: nat := 1000

  datatype Hidden = Hidden(user: Id, isHidden: bool, hiddenAt: Instant)

  datatype Conversation = Conversation(
    isGroup: bool,
    users: seq<Id>,
    acceptedBy: seq<Id>,
    admin: Option<Id>,
    lastMessage: Option<Id>,
    pin: Option<Id>,
    hiddenHistory: seq<Hidden>,
    receipts: map<Id, Id>)

  datatype Message = Message(conversation: Id, sender: Id, isDeleted: bool, isCall: bool)

  // `newest` is above every message id handed out so far.
  datatype State = State(conversations: map<Id, Conversation>, messages: map<Id, Message>, newest: Id)

  datatype Error =
    | ConversationNotFound | NotAGroup | NotGroupAdmin | NotAMember | NotAccepted | DirectMustBeTwo | GroupMinThree
    | GroupNameRequired | GroupMaxMembersExceeded | UsersNotExist | CannotRemoveAdmin | AlreadyAdmin | ChangeAdminFailed
    | AlreadyHidden | MessageNotFound | CannotReadOlder | AlreadyDeleted | CallMessage | NotMessageOwner | NotPinned
    | UserHidden | CannotSend

  datatype Result<+T> = Ok(value: T) | Err(error: Error)

  // ----- Small helpers of the handlers -----

  // The elements in order of first appearance.
  function Unique(ids: seq<Id>): seq<Id> {
    if ids == [] then []
    else
      var front, last := Unique(ids[..|ids| - 1]), ids[|ids| - 1];
      if last in front then front else front + [last]
  }

  function Keep(ids: seq<Id>, wanted: set<Id>): seq<Id> {
    if ids == [] then []
    else
      var front, last := Keep(ids[..|ids| - 1], wanted), ids[|ids| - 1];
      if last in wanted then front + [last] else front
  }

  function Without(ids: seq<Id>, gone: Id): seq<Id> {
    if ids == [] then []
    else
      var front, last := Without(ids[..|ids| - 1], gone), ids[|ids| - 1];
      if last != gone then front + [last] else front
  }

  function EntriesWithout(entries: seq<Hidden>, user: Id): seq<Hidden> {
    if entries == [] then []
    else
      var front, last := EntriesWithout(entries[..|entries| - 1], user), entries[|entries| - 1];
      if last.user != user then front + [last] else front
  }

  function NewEntries(ids: seq<Id>, isHidden: bool, now: Instant): seq<Hidden> {
    if ids == [] then [] else NewEntries(ids[..|ids| - 1], isHidden, now) + [Hidden(ids[|ids| - 1], isHidden, now)]
  }

  // Every entry becomes visible again.
  function Restored(entries: seq<Hidden>): seq<Hidden> {
    if entries == [] then []
    else Restored(entries[..|entries| - 1]) + [entries[|entries| - 1].(isHidden := false)]
  }

  // The entries of one user set to this visibility.
  function SetEntry(entries: seq<Hidden>, user: Id, isHidden: bool, hiddenAt: Option<Instant>): seq<Hidden> {
    if entries == [] then []
    else
      var front, last := SetEntry(entries[..|entries| - 1], user, isHidden, hiddenAt), entries[|entries| - 1];
      front + [if last.user == user
               then Hidden(user, isHidden, if hiddenAt.Some? then hiddenAt.value else last.hiddenAt) else last]
  }

  predicate HasEntry(entries: seq<Hidden>, user: Id) {
    exists i | 0 <= i < |entries| :: entries[i].user == user
  }

  predicate IsHiddenFor(entries: seq<Hidden>, user: Id) {
    exists i | 0 <= i < |entries| :: entries[i].user == user && entries[i].isHidden
  }

  // ----- Messages -----

  // A new message, and what updateLastMessageAndRestoreConversation writes for it.
  function Post(s: State, c: Id, sender: Id, m: Id, isCall: bool): State
    requires c in s.conversations
  {
    var conversation := s.conversations[c];
    s.(messages := s.messages[m := Message(c, sender, false, isCall)],
       newest := m,
       conversations := s.conversations[c := conversation.(
         lastMessage := Some(m),
         hiddenHistory := Restored(conversation.hiddenHistory),
         receipts := conversation.receipts[sender := m])])
  }

  // createMessage by a user; `allowed` gathers mute, ban, block and direct-chat checks.
  function Send(s: State, c: Id, sender: Id, m: Id, allowed: bool): Result<State> {
    if c !in s.conversations then Err(ConversationNotFound)
    else if !allowed then Err(CannotSend)
    else if sender !in s.conversations[c].users then Err(NotAMember)
    else Ok(Post(s, c, sender, m, false))
  }

  function SoftDelete(s: State, c: Id, m: Id, user: Id): Result<State> {
    if c !in s.conversations then Err(ConversationNotFound)
    else
      var conversation := s.conversations[c];
      if user !in conversation.users then Err(NotAMember)
      else if IsHiddenFor(conversation.hiddenHistory, user) then Err(UserHidden)
      else if m !in s.messages || s.messages[m].conversation != c then Err(MessageNotFound)
      else if s.messages[m].sender != user then Err(NotMessageOwner)
      else if s.messages[m].isDeleted then Err(AlreadyDeleted)
      else if s.messages[m].isCall then Err(CallMessage)
      else
        var t := s.(messages := s.messages[m := s.messages[m].(isDeleted := true)]);
        Ok(
          if conversation.pin == Some(m)
          then t.(conversations := t.conversations[c := conversation.(pin := None)])
          else t)
  }

  predicate CanPin(conversation: Conversation, user: Id) {
    if conversation.isGroup then conversation.admin == Some(user) else user in conversation.users
  }

  function Pin(s: State, c: Id, m: Id, user: Id): Result<State> {
    if c !in s.conversations then Err(ConversationNotFound)
    else if !CanPin(s.conversations[c], user) then Err(if s.conversations[c].isGroup then NotGroupAdmin else NotAMember)
    else if m !in s.messages || s.messages[m].conversation != c then Err(MessageNotFound)
    else if s.messages[m].isDeleted then Err(AlreadyDeleted)
    else if s.messages[m].isCall then Err(CallMessage)
    else Ok(s.(conversations := s.conversations[c := s.conversations[c].(pin := Some(m))]))
  }

  function Unpin(s: State, c: Id, m: Id, user: Id): Result<State> {
    if c !in s.conversations then Err(ConversationNotFound)
    else if !CanPin(s.conversations[c], user) then Err(if s.conversations[c].isGroup then NotGroupAdmin else NotAMember)
    else if s.conversations[c].pin != Some(m) then Err(NotPinned)
    else Ok(s.(conversations := s.conversations[c := s.conversations[c].(pin := None)]))
  }

  function MarkAsRead(s: State, c: Id, user: Id, m: Id): Result<State> {
    if c !in s.conversations then Err(ConversationNotFound)
    else
      var conversation := s.conversations[c];
      if m !in s.messages || s.messages[m].conversation != c then Err(MessageNotFound)
      else if user !in conversation.users then Err(NotAMember)
      else if user in conversation.receipts && conversation.receipts[user] > m then Err(CannotReadOlder)
      else Ok(s.(conversations := s.conversations[c := conversation.(receipts := conversation.receipts[user := m])]))
  }

  // ----- Members -----

  // Who of `memberIds` can be added: not yet a member, and `eligible` (active, not banned, not blocked).
  function ValidMembers(conversation: Conversation, memberIds: seq<Id>, eligible: set<Id>): seq<Id> {
    Keep(Unique(memberIds), eligible - (set u | u in conversation.users))
  }

  // $addToSet skips who is a member by now; the history entries are pushed all the same.
  function CommitAdd(s: State, c: Id, me: Id, valid: seq<Id>, m: Id, now: Instant): State
    requires c in s.conversations
  {
    var conversation := s.conversations[c];
    var joining := Keep(valid, (set u | u in valid) - (set u | u in conversation.users));
    var grown := conversation.(users := conversation.users + joining,
                               hiddenHistory := conversation.hiddenHistory + NewEntries(valid, false, now));
    Post(s.(conversations := s.conversations[c := grown]), c, me, m, false)
  }

  function AddMembers(s: State, c: Id, me: Id, memberIds: seq<Id>, eligible: set<Id>, m: Id, now: Instant)
    : Result<State>
  {
    if c !in s.conversations then Err(ConversationNotFound)
    else
      var conversation := s.conversations[c];
      var valid := ValidMembers(conversation, memberIds, eligible);
      if !conversation.isGroup then Err(NotAGroup)
      else if conversation.admin != Some(me) then Err(NotGroupAdmin)
      else if valid == [] then Err(UsersNotExist)
      else if |conversation.users| + |valid| > MAX_GROUP_MEMBERS then Err(GroupMaxMembersExceeded)
      else Ok(CommitAdd(s, c, me, valid, m, now))
  }

  // What the transaction of removeMember writes, whatever the conversation has become since it was read.
  function CommitRemove(s: State, c: Id, me: Id, member: Id, m: Id): State
    requires c in s.conversations
  {
    var conversation := s.conversations[c];
    var shrunk := conversation.(users := Without(conversation.users, member),
                                hiddenHistory := EntriesWithout(conversation.hiddenHistory, member),
                                acceptedBy := Without(conversation.acceptedBy, member),
                                receipts := conversation.receipts - {member});
    Post(s.(conversations := s.conversations[c := shrunk]), c, me, m, false)
  }

  function RemoveMember(s: State, c: Id, me: Id, member: Id, m: Id): Result<State> {
    if c !in s.conversations then Err(ConversationNotFound)
    else
      var conversation := s.conversations[c];
      if !conversation.isGroup then Err(NotAGroup)
      else if me != member && conversation.admin != Some(me) then Err(NotGroupAdmin)
      else if me == member && conversation.admin == Some(me) then Err(CannotRemoveAdmin)
      else if member !in conversation.users then Err(NotAMember)
      else Ok(CommitRemove(s, c, me, member, m))
  }

  // What the transaction of changeAdminGroup writes.
  function CommitAdmin(s: State, c: Id, me: Id, newAdmin: Id, m: Id): State
    requires c in s.conversations
  {
    Post(s.(conversations := s.conversations[c := s.conversations[c].(admin := Some(newAdmin))]), c, me, m, false)
  }

  // `usable` is the outcome of checkUser for the new admin, `blocked` that of checkIsBlocked.
  function ChangeAdmin(s: State, c: Id, me: Id, newAdmin: Id, usable: bool, blocked: bool, m: Id): Result<State> {
    if c !in s.conversations then Err(ConversationNotFound)
    else
      var conversation := s.conversations[c];
      if !conversation.isGroup then Err(NotAGroup)
      else if conversation.admin != Some(me) then Err(NotGroupAdmin)
      else if newAdmin !in conversation.users then Err(NotAMember)
      else if newAdmin !in conversation.acceptedBy then Err(NotAccepted)
      else if !usable then Err(UsersNotExist)
      else if blocked then Err(ChangeAdminFailed)
      else if me == newAdmin then Err(AlreadyAdmin)
      else Ok(CommitAdmin(s, c, me, newAdmin, m))
  }

  function Disband(s: State, c: Id, me: Id): Result<State> {
    if c !in s.conversations then Err(ConversationNotFound)
    else if !s.conversations[c].isGroup then Err(NotAGroup)
    else if s.conversations[c].admin != Some(me) then Err(NotGroupAdmin)
    else Ok(s.(conversations := s.conversations - {c},
               messages := map m | m in s.messages && s.messages[m].conversation != c :: s.messages[m]))
  }

  function Accept(s: State, c: Id, user: Id): Result<State> {
    if c !in s.conversations then Err(ConversationNotFound)
    else
      var conversation := s.conversations[c];
      if user !in conversation.users then Err(NotAMember)
      else if user in conversation.acceptedBy then Ok(s)
      else Ok(s.(conversations := s.conversations[c := conversation.(acceptedBy := conversation.acceptedBy + [user])]))
  }

  // hiddenHistory: leaving a direct chat with somebody who is no friend also withdraws the acceptance.
  function Hide(s: State, c: Id, user: Id, isFriend: bool, now: Instant): Result<State> {
    if c !in s.conversations then Err(ConversationNotFound)
    else
      var conversation := s.conversations[c];
      if user !in conversation.users then Err(NotAMember)
      else if IsHiddenFor(conversation.hiddenHistory, user) then Err(AlreadyHidden)
      else
        var entries := if HasEntry(conversation.hiddenHistory, user)
                       then SetEntry(conversation.hiddenHistory, user, true, Some(now))
                       else conversation.hiddenHistory + [Hidden(user, true, now)];
        var accepted := if !conversation.isGroup && !isFriend then Without(conversation.acceptedBy, user)
                        else conversation.acceptedBy;
        Ok(s.(conversations := s.conversations[c := conversation.(hiddenHistory := entries, acceptedBy := accepted)]))
  }

  // ----- Creation -----

  predicate SameMembers(users: seq<Id>, members: seq<Id>) {
    |users| == |members| && forall u | u in members :: u in users
  }

  predicate IsDirectOf(conversation: Conversation, members: seq<Id>) {
    !conversation.isGroup && SameMembers(conversation.users, members)
  }

  // What `findOne` for the direct conversation of these members may return.
  predicate FoundDirect(s: State, members: seq<Id>, found: Option<Id>) {
    if found.Some? then found.value in s.conversations && IsDirectOf(s.conversations[found.value], members)
    else forall c | c in s.conversations :: !IsDirectOf(s.conversations[c], members)
  }

  // The answers the creation gets from users and relationships.
  datatype Answers = Answers(blocked: set<Id>, friends: set<Id>, allExist: bool, recentGroup: Option<Id>)

  function Members(me: Id, others: seq<Id>, blocked: set<Id>): seq<Id> {
    Keep(Unique([me] + others), (set u | u in [me] + others) - blocked)
  }

  function CreateDirect(s: State, c: Id, me: Id, others: seq<Id>, a: Answers, found: Option<Id>, now: Instant)
    : Result<State>
  {
    var members := Members(me, others, a.blocked);
    if |Unique([me] + others)| != 2 || |members| != 2 then Err(DirectMustBeTwo)
    else if !a.allExist then Err(UsersNotExist)
    else if found.Some? && found.value in s.conversations then
      var conversation := s.conversations[found.value];
      if IsHiddenFor(conversation.hiddenHistory, me) then
        Ok(s.(conversations := s.conversations[found.value :=
          conversation.(hiddenHistory := SetEntry(conversation.hiddenHistory, me, false, None),
                        acceptedBy := conversation.acceptedBy + [me])]))
      else Ok(s)
    else
      var target := members[1];
      var accepted := if target in a.friends then [me, target] else [me];
      Ok(s.(conversations := s.conversations[c :=
        Conversation(false, members, accepted, None, None, None, [Hidden(target, true, now)], map[])]))
  }

  function CreateGroup(s: State, c: Id, me: Id, others: seq<Id>, hasName: bool, a: Answers): Result<State> {
    var members := Members(me, others, a.blocked);
    if !hasName then Err(GroupNameRequired)
    else if |Unique([me] + others)| < 3 then Err(GroupMinThree)
    else if |Unique([me] + others)| > MAX_GROUP_MEMBERS then Err(GroupMaxMembersExceeded)
    else if |members| < 3 then Err(GroupMinThree)
    else if !a.allExist then Err(UsersNotExist)
    else if a.recentGroup.Some? then Ok(s)
    else
      var accepted := [me] + Keep(Unique(Without(others, me)), a.friends);
      Ok(s.(conversations :=
            s.conversations[c := Conversation(true, members, accepted, Some(me), None, None, [], map[])]))
  }

  // ----- Events -----

  datatype Event =
    | DirectEvent(c: Id, me: Id, others: seq<Id>, answers: Answers, found: Option<Id>, now: Instant)
    | GroupEvent(c: Id, me: Id, others: seq<Id>, hasName: bool, answers: Answers)
    | AddEvent(c: Id, me: Id, memberIds: seq<Id>, eligible: set<Id>, m: Id, now: Instant)
    | RemoveEvent(c: Id, me: Id, member: Id, m: Id)
    | ChangeAdminEvent(c: Id, me: Id, newAdmin: Id, usable: bool, blocked: bool, m: Id)
    | DisbandEvent(c: Id, me: Id)
    | AcceptEvent(c: Id, user: Id)
    | HideEvent(c: Id, user: Id, isFriend: bool, now: Instant)
    | SendEvent(c: Id, user: Id, m: Id, allowed: bool)
    | CallEvent(c: Id, user: Id, m: Id)        // the summary message of a closed call
    | SoftDeleteEvent(c: Id, m: Id, user: Id)
    | PinEvent(c: Id, m: Id, user: Id)
    | UnpinEvent(c: Id, m: Id, user: Id)
    | MarkAsReadEvent(c: Id, user: Id, m: Id)

  function Handle(s: State, e: Event): Result<State> {
    match e
    case DirectEvent(c, me, others, a, found, now) => CreateDirect(s, c, me, others, a, found, now)
    case GroupEvent(c, me, others, hasName, a) => CreateGroup(s, c, me, others, hasName, a)
    case AddEvent(c, me, memberIds, eligible, m, now) => AddMembers(s, c, me, memberIds, eligible, m, now)
    case RemoveEvent(c, me, member, m) => RemoveMember(s, c, me, member, m)
    case ChangeAdminEvent(c, me, newAdmin, usable, blocked, m) => ChangeAdmin(s, c, me, newAdmin, usable, blocked, m)
    case DisbandEvent(c, me) => Disband(s, c, me)
    case AcceptEvent(c, user) => Accept(s, c, user)
    case HideEvent(c, user, isFriend, now) => Hide(s, c, user, isFriend, now)
    case SendEvent(c, user, m, allowed) => Send(s, c, user, m, allowed)
    case CallEvent(c, user, m) =>
      if c in s.conversations then Ok(Post(s, c, user, m, true)) else Err(ConversationNotFound)
    case SoftDeleteEvent(c, m, user) => SoftDelete(s, c, m, user)
    case PinEvent(c, m, user) => Pin(s, c, m, user)
    case UnpinEvent(c, m, user) => Unpin(s, c, m, user)
    case MarkAsReadEvent(c, user, m) => MarkAsRead(s, c, user, m)
  }

  predicate Posts(e: Event) {
    e.AddEvent? || e.RemoveEvent? || e.ChangeAdminEvent? || e.SendEvent? || e.CallEvent?
  }

  // What the database and the other services guarantee: new ids are new, message ids increase,
  // `found` answers its query, nobody blocks themselves or is friend and blocked at once.
  ghost predicate Plausible(s: State, e: Event) {
    && (Posts(e) ==> e.m > s.newest)
    && (e.DirectEvent? || e.GroupEvent? ==>
          && e.c !in s.conversations && e.me !in e.answers.blocked && e.answers.friends !! e.answers.blocked)
    && (e.DirectEvent? ==> FoundDirect(s, Members(e.me, e.others, e.answers.blocked), e.found))
  }

  function Step(s: State, e: Event): State {
    if Handle(s, e).Ok? then Handle(s, e).value else s
  }

  function Run(s: State, events: seq<Event>): State
    decreases |events|
  {
    if events == [] then s else Run(Step(s, events[0]), events[1..])
  }

  ghost predicate PlausibleRun(s: State, events: seq<Event>)
    decreases |events|
  {
    events != [] ==> Plausible(s, events[0]) && PlausibleRun(Step(s, events[0]), events[1..])
  }

  const START := State(map[], map[], 0)
}
