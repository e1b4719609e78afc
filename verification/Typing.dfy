// Typing indicators over many sockets, each handler one step:
// src/modules/realtime/realtime-chat-command.service.ts:190-303, realtime-event-bridge.service.ts:66-95,
// src/redis/redis.service.ts:62-74, 334-449.
module Typing {
  import opened Common
  import opened Sequences

  datatype Key = Key(conversation: string, user: string, socket: string)

  datatype Broadcast = Broadcast(conversation: string, user: string, typing: bool)

  // Keys that are alive, expiry notices not handled yet, and everything broadcast so far.
  datatype State = State(keys: set<Key>, notices: seq<Key>, sent: seq<Broadcast>)

  function Live(keys: set<Key>, conversation: string, user: string): set<Key> {
    set k | k in keys && k.conversation == conversation && k.user == user
  }

  function Emit(s: State, k: Key, typing: bool): State {
    s.(sent := s.sent + [Broadcast(k.conversation, k.user, typing)])
  }

  // typingStart: a new key that is the only one of its user and conversation is announced.
  function Start(s: State, k: Key): State {
    if k in s.keys then s
    else
      Announce(s.(keys := s.keys + {k}), k)
  }

  function Announce(s: State, k: Key): State {
    if |Live(s.keys, k.conversation, k.user)| == 1 then Emit(s, k, true) else s
  }

  // typingStop: the removal of the last key is announced.
  function Stop(s: State, k: Key): State {
    if k !in s.keys then s
    else
      var t := s.(keys := s.keys - {k});
      if |Live(t.keys, k.conversation, k.user)| == 0 then Emit(t, k, false) else t
  }

  // Redis drops a key that was not refreshed in time and queues a notice about it.
  function Expire(s: State, k: Key): State {
    if k !in s.keys then s else s.(keys := s.keys - {k}, notices := s.notices + [k])
  }

  // The notice is handled later, in whatever order.
  function Notice(s: State, i: nat): State {
    if i >= |s.notices| then s
    else
      var k := s.notices[i];
      var t := s.(notices := s.notices[..i] + s.notices[i + 1..]);
      if |Live(t.keys, k.conversation, k.user)| > 0 then t else Emit(t, k, false)
  }

  datatype Event = StartEvent(key: Key) | StopEvent(key: Key) | ExpireEvent(key: Key) | NoticeEvent(index: nat)

  function Step(s: State, e: Event): State {
    match e
    case StartEvent(k) => Start(s, k)
    case StopEvent(k) => Stop(s, k)
    case ExpireEvent(k) => Expire(s, k)
    case NoticeEvent(i) => Notice(s, i)
  }

  function Run(s: State, events: seq<Event>): State
    decreases |events|
  {
    if events == [] then s else Run(Step(s, events[0]), events[1..])
  }

  const START := State({}, [], [])

  // Whatever else lives: starting adds the key and announces exactly a key of somebody who had none there, and
  // stopping removes it and announces exactly the removal of the only one.
  lemma StartSays(s: State, k: Key)
    ensures var t := Start(s, k);
      && t.keys == s.keys + {k} && t.notices == s.notices
      && t.sent == s.sent + if Types(s.keys, k.conversation, k.user)
                            then [] else [Broadcast(k.conversation, k.user, true)]
  {
    var live := Live(s.keys, k.conversation, k.user);
    assert live == {} <==> !Types(s.keys, k.conversation, k.user) by {
      TypesIff(s.keys, k.conversation, k.user);
    }
    if k in s.keys {
      assert s.keys + {k} == s.keys && k in live;
    } else {
      assert Live(s.keys + {k}, k.conversation, k.user) == live + {k};
      assert |live + {k}| == |live| + 1;
    }
  }

  predicate Types(keys: set<Key>, conversation: string, user: string) {
    exists k | k in keys :: k.conversation == conversation && k.user == user
  }

  lemma TypesIff(keys: set<Key>, conversation: string, user: string)
    ensures Types(keys, conversation, user) <==> Live(keys, conversation, user) != {}
  {
    if Types(keys, conversation, user) {
      var k :| k in keys && k.conversation == conversation && k.user == user;
      assert k in Live(keys, conversation, user);
    }
  }

  lemma StopSays(s: State, k: Key)
    ensures var t := Stop(s, k);
      && t.keys == s.keys - {k} && t.notices == s.notices
      && (k !in s.keys ==> t == s)
      && (k in s.keys ==>
            t.sent == s.sent
              + if Types(s.keys - {k}, k.conversation, k.user)
                then [] else [Broadcast(k.conversation, k.user, false)])
  {
    TypesIff(s.keys - {k}, k.conversation, k.user);
    if k !in s.keys {
      assert s.keys - {k} == s.keys;
    }
  }

  // An expiry drops the key and leaves one notice; handling a notice takes it away and announces the stop exactly
  // when no key is left.
  lemma ExpiryAndNoticeSay(s: State, k: Key, i: nat)
    ensures var t := Expire(s, k);
      t.keys == s.keys - {k} && t.sent == s.sent && t.notices == s.notices + if k in s.keys then [k] else []
    ensures i < |s.notices| ==>
      var t, n := Notice(s, i), s.notices[i];
      && t.keys == s.keys && t.notices == s.notices[..i] + s.notices[i + 1..]
      && t.sent == s.sent + if Types(s.keys, n.conversation, n.user)
                            then [] else [Broadcast(n.conversation, n.user, false)]
  {
    if i < |s.notices| {
      TypesIff(s.keys, s.notices[i].conversation, s.notices[i].user);
    }
  }

  // What the other members were told last about this user in this conversation.
  function LastSent(sent: seq<Broadcast>, conversation: string, user: string): Option<bool> {
    if sent == [] then None
    else
      var last := sent[|sent| - 1];
      if last.conversation == conversation && last.user == user then Some(last.typing)
      else LastSent(sent[..|sent| - 1], conversation, user)
  }

  lemma LastSentAfter(sent: seq<Broadcast>, b: Broadcast, conversation: string, user: string)
    ensures LastSent(sent + [b], conversation, user)
         == if b.conversation == conversation && b.user == user
            then Some(b.typing)
            else LastSent(sent, conversation, user)
  {
    assert (sent + [b])[..|sent|] == sent;
  }

  predicate NoticePending(s: State, conversation: string, user: string) {
    exists k | k in s.notices :: k.conversation == conversation && k.user == user
  }

  ghost predicate Agrees(s: State, conversation: string, user: string) {
    && (Live(s.keys, conversation, user) != {} ==> LastSent(s.sent, conversation, user) == Some(true))
    && (Live(s.keys, conversation, user) == {} && !NoticePending(s, conversation, user) ==>
          LastSent(s.sent, conversation, user) != Some(true))
  }

  lemma StartAgrees(s: State, k: Key, conversation: string, user: string)
    requires Agrees(s, conversation, user)
    ensures Agrees(Start(s, k), conversation, user)
  {
    if k !in s.keys {
      LastSentAfter(s.sent, Broadcast(k.conversation, k.user, true), conversation, user);
      var live, after := Live(s.keys, conversation, user), Live(s.keys + {k}, conversation, user);
      if k.conversation == conversation && k.user == user {
        assert after == live + {k} && |after| == |live| + 1;
      } else {
        assert after == live;
      }
    }
  }

  lemma StopAgrees(s: State, k: Key, conversation: string, user: string)
    requires Agrees(s, conversation, user)
    ensures Agrees(Stop(s, k), conversation, user)
  {
    if k in s.keys {
      LastSentAfter(s.sent, Broadcast(k.conversation, k.user, false), conversation, user);
      var live, after := Live(s.keys, conversation, user), Live(s.keys - {k}, conversation, user);
      if k.conversation == conversation && k.user == user {
        assert k in live;
      } else {
        assert after == live;
      }
    }
  }

  lemma ExpireAgrees(s: State, k: Key, conversation: string, user: string)
    requires Agrees(s, conversation, user)
    ensures Agrees(Expire(s, k), conversation, user)
  {
    if k in s.keys {
      var live, after := Live(s.keys, conversation, user), Live(s.keys - {k}, conversation, user);
      if k.conversation == conversation && k.user == user {
        assert k in live && k in Expire(s, k).notices;
      } else {
        assert after == live;
      }
      assert forall n | n in s.notices :: n in Expire(s, k).notices;
    }
  }

  lemma NoticeAgrees(s: State, i: nat, conversation: string, user: string)
    requires Agrees(s, conversation, user)
    ensures Agrees(Notice(s, i), conversation, user)
  {
    if i < |s.notices| {
      var k := s.notices[i];
      LastSentAfter(s.sent, Broadcast(k.conversation, k.user, false), conversation, user);
      if k.conversation != conversation || k.user != user {
        forall n | n in s.notices && n.conversation == conversation && n.user == user
          ensures n in Notice(s, i).notices
        {
          var j :| 0 <= j < |s.notices| && s.notices[j] == n;
          assert n == if j < i then s.notices[..i][j] else s.notices[i + 1..][j - i - 1];
        }
      }
    }
  }

  // After any run over any sockets, users and conversations: while a key is alive the last broadcast says "typing";
  // with no key alive and no notice waiting it says "stopped", or there never was one.
  lemma {:induction false} BroadcastsAgree(s: State, events: seq<Event>, conversation: string, user: string)
    requires Agrees(s, conversation, user)
    ensures Agrees(Run(s, events), conversation, user)
    decreases |events|
  {
    if events == [] {
    } else {
      match events[0] {
        case StartEvent(k) => StartAgrees(s, k, conversation, user);
        case StopEvent(k) => StopAgrees(s, k, conversation, user);
        case ExpireEvent(k) => ExpireAgrees(s, k, conversation, user);
        case NoticeEvent(i) => NoticeAgrees(s, i, conversation, user);
      }
      BroadcastsAgree(Step(s, events[0]), events[1..], conversation, user);
    }
  }

  function Drain(s: State): State
    decreases |s.notices|
  {
    if s.notices == [] then s else Drain(Notice(s, 0))
  }

  // Once the waiting notices are handled, the others were told "typing" last exactly for those who type.
  lemma {:induction false} DrainSettles(s: State, conversation: string, user: string)
    requires Agrees(s, conversation, user)
    ensures Drain(s).keys == s.keys
    ensures LastSent(Drain(s).sent, conversation, user) == Some(true) <==> Live(s.keys, conversation, user) != {}
    decreases |s.notices|
  {
    if s.notices != [] {
      NoticeAgrees(s, 0, conversation, user);
      DrainSettles(Notice(s, 0), conversation, user);
    } else {
      assert !NoticePending(s, conversation, user);
    }
  }

  lemma EverythingAgrees(events: seq<Event>, conversation: string, user: string)
    ensures Agrees(Run(START, events), conversation, user)
    ensures LastSent(Drain(Run(START, events)).sent, conversation, user) == Some(true)
      <==> Live(Run(START, events).keys, conversation, user) != {}
  {
    assert Live({}, conversation, user) == {};
    BroadcastsAgree(START, events, conversation, user);
    DrainSettles(Run(START, events), conversation, user);
  }

  // ----- Counting by SCAN -----

  function Flatten(pages: seq<seq<Key>>): seq<Key> {
    if pages == [] then [] else pages[0] + Flatten(pages[1..])
  }

  // What Redis promises of a full iteration: every matching key at least once, and no other.
  ghost predicate Scans(pages: seq<seq<Key>>, live: set<Key>) {
    pages != [] && forall k :: k in Flatten(pages) <==> k in live
  }

  lemma {:induction false} CountOfDistinct(items: seq<Key>)
    ensures var elements := set k | k in items;
      |elements| <= |items| && (|elements| == |items| <==> Distinct(items))
  {
    if items == [] {
    } else {
      var front, last := items[..|items| - 1], items[|items| - 1];
      CountOfDistinct(front);
      var before := set k | k in front;
      assert items == front + [last];
      assert (set k | k in items) == before + {last};
      if last in front {
        assert before + {last} == before;
      }
    }
  }

  lemma ScanLength(pages: seq<seq<Key>>, live: set<Key>)
    requires Scans(pages, live)
    ensures |live| <= |Flatten(pages)| && (|live| == |Flatten(pages)| <==> Distinct(Flatten(pages)))
    ensures live == {} <==> Flatten(pages) == []
  {
    var keys := Flatten(pages);
    CountOfDistinct(keys);
    assert (set k | k in keys) == live;
    if keys == [] {
    } else {
      assert keys[0] in live;
    }
  }

  lemma OnlyKeyIff(keys: set<Key>, k: Key)
    requires k in keys
    ensures var live := Live(keys, k.conversation, k.user);
      |live| >= 1 && (|live| == 1 <==> live == {k})
  {
    var live := Live(keys, k.conversation, k.user);
    assert k in live && live == live - {k} + {k};
  }

  class TypingStore {
    var keys: set<Key>
    var notices: seq<Key>
    var sent: seq<Broadcast>

    constructor ()
      ensures Snapshot() == START
    {
      keys, notices, sent := {}, [], [];
    }

    ghost function Snapshot(): State
      reads this
    {
      State(keys, notices, sent)
    }

    // Returns whether the key is new; an existing key is only refreshed.
    method SetTypingConversation(k: Key) returns (isNew: bool)
      modifies `keys
      ensures keys == old(keys) + {k} && isNew == (k !in old(keys))
    {
      isNew := k !in keys;
      if isNew {
        keys := keys + {k};
      }
    }

    method RemoveTypingConversation(k: Key) returns (removed: bool)
      modifies `keys
      ensures keys == old(keys) - {k} && removed == (k in old(keys))
    {
      removed := k in keys;
      keys := keys - {k};
    }

    // `pages` are the replies of the SCAN iteration. The count is never too small, zero exactly when no key is alive,
    // and right exactly when the iteration repeats no key.
    method CountTypingConversations(conversation: string, user: string, pages: seq<seq<Key>>) returns (count: nat)
      requires Scans(pages, Live(keys, conversation, user))
      ensures |Live(keys, conversation, user)| <= count
      ensures count == 0 <==> Live(keys, conversation, user) == {}
      ensures count == |Live(keys, conversation, user)| <==> Distinct(Flatten(pages))
    {
      count := 0;
      var cursor := 0;
      while cursor < |pages|
        invariant 0 <= cursor <= |pages|
        invariant count + |Flatten(pages[cursor..])| == |Flatten(pages)|
      {
        assert pages[cursor..][1..] == pages[cursor + 1..];
        count := count + |pages[cursor]|;
        cursor := cursor + 1;
      }
      ScanLength(pages, Live(keys, conversation, user));
    }

    // A first key is announced exactly when the iteration does not repeat it; otherwise the handler does
    // what is specified whatever the iteration repeats.
    method TypingStart(k: Key, limited: bool, pages: seq<seq<Key>>)
      requires Scans(pages, Live(keys + {k}, k.conversation, k.user))
      modifies this
      ensures limited ==> Snapshot() == old(Snapshot())
      ensures !limited ==>
        (Snapshot() == Start(old(Snapshot()), k)
         <==> !(k !in old(keys) && Live(keys, k.conversation, k.user) == {k} && !Distinct(Flatten(pages))))
      ensures !limited && Snapshot() != Start(old(Snapshot()), k) ==>
        Snapshot() == old(Snapshot()).(keys := old(keys) + {k})
    {
      if limited {
        return;
      }
      ghost var start := Snapshot();
      var isNew := SetTypingConversation(k);
      if isNew {
        var typingCount := CountTypingConversations(k.conversation, k.user, pages);
        OnlyKeyIff(keys, k);
        if typingCount == 1 {
          sent := sent + [Broadcast(k.conversation, k.user, true)];
        }
        assert |sent| == |start.sent| + if typingCount == 1 then 1 else 0;
      }
    }

    method TypingStop(k: Key, limited: bool, pages: seq<seq<Key>>)
      requires Scans(pages, Live(keys - {k}, k.conversation, k.user))
      modifies this
      ensures Snapshot() == if limited then old(Snapshot()) else Stop(old(Snapshot()), k)
    {
      if limited {
        return;
      }
      var removed := RemoveTypingConversation(k);
      if removed {
        var typingCount := CountTypingConversations(k.conversation, k.user, pages);
        if typingCount == 0 {
          sent := sent + [Broadcast(k.conversation, k.user, false)];
        }
      }
    }

    // The userTypingStop$ handler, for the notice at position i.
    method OnExpired(i: nat, pages: seq<seq<Key>>)
      requires i < |notices| && Scans(pages, Live(keys, notices[i].conversation, notices[i].user))
      modifies this
      ensures Snapshot() == Notice(old(Snapshot()), i)
    {
      var k := notices[i];
      notices := notices[..i] + notices[i + 1..];
      var count := CountTypingConversations(k.conversation, k.user, pages);
      if count > 0 {
        return;
      }
      sent := sent + [Broadcast(k.conversation, k.user, false)];
    }
  }

  // ----- Key names -----

  function KeyPieces(conversation: string, user: string): seq<string> {
    ["typing", "conversation", conversation, "user", user, "socket"]
  }

  function TypingKey(k: Key): string {
    Join(KeyPieces(k.conversation, k.user) + [k.socket], ':')
  }

  function TypingPattern(conversation: string, user: string): string {
    Join(KeyPieces(conversation, user) + [""], ':') + "*"
  }

  // The expiry subscriber finds conversation, user and socket at the third, fifth and seventh piece of the key.
  lemma SubscriberReadsBack(k: Key)
    requires ':' !in k.conversation && ':' !in k.user
    ensures var parts := SplitOn(TypingKey(k), ':');
      && |parts| >= 7 && parts[2] == k.conversation && parts[4] == k.user
      && (':' !in k.socket ==> parts[6] == k.socket)
  {
    SplitUndoesJoin(KeyPieces(k.conversation, k.user), k.socket, ':');
    if ':' !in k.socket {
      SplitWhole(k.socket, ':');
    }
  }

  // The characters a Redis pattern gives a meaning to.
  predicate Special(ch: char) {
    ch == '*' || ch == '?' || ch == '[' || ch == '\\'
  }

  // Redis MATCH, for patterns without a character class.
  predicate Matches(pattern: string, s: string)
    requires '[' !in pattern
    decreases |pattern|, |s|
  {
    if pattern == "" then s == ""
    else if pattern[0] == '*' then Matches(pattern[1..], s) || (s != "" && Matches(pattern, s[1..]))
    else if pattern[0] == '?' then s != "" && Matches(pattern[1..], s[1..])
    else if pattern[0] == '\\' && |pattern| > 1 then s != "" && s[0] == pattern[1] && Matches(pattern[2..], s[1..])
    else s != "" && s[0] == pattern[0] && Matches(pattern[1..], s[1..])
  }

  ghost predicate Literal(s: string) {
    forall i | 0 <= i < |s| :: !Special(s[i])
  }

  lemma {:induction false} StarMatchesAll(s: string)
    ensures Matches("*", s)
  {
    if s == "" {
      assert Matches("*"[1..], s);
    } else {
      StarMatchesAll(s[1..]);
    }
  }

  // A literal text and a star match exactly what starts with the text.
  lemma {:induction false} PrefixMatches(prefix: string, s: string)
    requires Literal(prefix)
    ensures '[' !in prefix + "*" && (Matches(prefix + "*", s) <==> prefix <= s)
  {
    if prefix == "" {
      assert prefix + "*" == "*";
      StarMatchesAll(s);
    } else {
      assert (prefix + "*")[1..] == prefix[1..] + "*" && (prefix + "*")[0] == prefix[0];
      assert forall i | 0 < i < |prefix| :: prefix[i] == prefix[1..][i - 1];
      if s == "" {
        PrefixMatches(prefix[1..], s);
      } else {
        PrefixMatches(prefix[1..], s[1..]);
        assert s == [s[0]] + s[1..] && prefix == [prefix[0]] + prefix[1..];
      }
    }
  }

  lemma {:induction false} JoinIsLiteral(pieces: seq<string>)
    requires forall i | 0 <= i < |pieces| :: Literal(pieces[i])
    ensures Literal(Join(pieces, ':'))
  {
    if |pieces| <= 1 {
    } else {
      JoinIsLiteral(pieces[1..]);
    }
  }

  // Ids without a colon and without pattern characters, as the hexadecimal ids are.
  ghost predicate PlainId(id: string) {
    ':' !in id && Literal(id)
  }

  // The SCAN pattern of a user and conversation matches exactly their keys.
  lemma PatternIsExact(k: Key, conversation: string, user: string)
    requires ':' !in k.conversation && ':' !in k.user && PlainId(conversation) && PlainId(user)
    ensures '[' !in TypingPattern(conversation, user)
    ensures Matches(TypingPattern(conversation, user), TypingKey(k))
      <==> k.conversation == conversation && k.user == user
  {
    var pieces := KeyPieces(conversation, user);
    var prefix := Join(pieces + [""], ':');
    JoinIsLiteral(pieces + [""]);
    PrefixMatches(prefix, TypingKey(k));
    JoinAppends(KeyPieces(k.conversation, k.user), k.socket, ':');
    if prefix <= TypingKey(k) {
      var socket := TypingKey(k)[|prefix|..];
      JoinAppends(pieces, socket, ':');
      assert TypingKey(k) == TypingKey(Key(conversation, user, socket));
      SubscriberReadsBack(k);
      SubscriberReadsBack(Key(conversation, user, socket));
    }
  }
}
