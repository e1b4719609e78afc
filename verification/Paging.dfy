// Cursor paging: messages by creation time below a hidden-history floor
// (src/modules/messages/message-query.service.ts:104-154) and audit logs by id
// (src/modules/audit-log/audit-log.service.ts:256-310). A store lists its records in the descending order of the query.
module Paging {
  import opened Common

  datatype Item = Item(id: Id, key: Instant)

  const LIMIT_MESSAGES: nat := 20

  datatype Page = Page(items: seq<Item>, nextCursor: Option<Instant>)

  ghost predicate Descending(store: seq<Item>) {
    forall i, j | 0 <= i < j < |store| :: store[i].key >= store[j].key
  }

  ghost predicate StrictlyDescending(store: seq<Item>) {
    forall i, j | 0 <= i < j < |store| :: store[i].key > store[j].key
  }

  predicate Passes(item: Item, cursor: Option<Instant>, floor: Option<Instant>) {
    (cursor.Some? ==> item.key < cursor.value) && (floor.Some? ==> item.key >= floor.value)
  }

  // The records the filter lets through, in order.
  function Find(store: seq<Item>, cursor: Option<Instant>, floor: Option<Instant>): seq<Item> {
    if store == [] then []
    else (if Passes(store[0], cursor, floor) then [store[0]] else []) + Find(store[1..], cursor, floor)
  }

  function Take(items: seq<Item>, limit: nat): seq<Item> {
    if |items| <= limit then items else items[..limit]
  }

  // getMessagesByConversation: one record more than the page is read to see whether there is a next page.
  function MessagePage(store: seq<Item>, cursor: Option<Instant>, floor: Option<Instant>): Page {
    var result := Take(Find(store, cursor, floor), LIMIT_MESSAGES + 1);
    if result == [] then Page([], None)
    else if |result| > LIMIT_MESSAGES then
      var trimmed := result[..|result| - 1];
      Page(trimmed, Some(trimmed[|trimmed| - 1].key))
    else Page(result, None)
  }

  // AuditLogService.findAll: a full page is taken to have a successor.
  function AuditPage(store: seq<Item>, cursor: Option<Instant>, limit: nat): Page {
    var logs := Take(Find(store, cursor, None), limit);
    Page(logs, if |logs| == limit && limit > 0 then Some(logs[|logs| - 1].key) else None)
  }

  // ----- Following the cursors -----

  function AllMessages(store: seq<Item>, cursor: Option<Instant>, floor: Option<Instant>): seq<Item>
    decreases |Find(store, cursor, floor)|
  {
    var page := MessagePage(store, cursor, floor);
    page.items
    + if page.nextCursor.Some? then
        (FewerBelow(store, cursor, floor, page.nextCursor.value);
         AllMessages(store, page.nextCursor, floor))
      else []
  }

  function AllLogs(store: seq<Item>, cursor: Option<Instant>, limit: nat): seq<Item>
    decreases |Find(store, cursor, None)|
  {
    var page := AuditPage(store, cursor, limit);
    page.items
    + if page.nextCursor.Some? then
        (FewerBelow(store, cursor, None, page.nextCursor.value);
         AllLogs(store, page.nextCursor, limit))
      else []
  }

  lemma {:induction false} FindMembers(store: seq<Item>, cursor: Option<Instant>, floor: Option<Instant>)
    ensures forall x :: x in Find(store, cursor, floor) <==> x in store && Passes(x, cursor, floor)
  {
    if store == [] {
    } else {
      FindMembers(store[1..], cursor, floor);
      assert store == [store[0]] + store[1..];
    }
  }

  // A cursor taken from a page lets strictly fewer records through.
  lemma {:induction false} FewerBelow(store: seq<Item>, cursor: Option<Instant>, floor: Option<Instant>, key: Instant)
    requires exists x :: x in Find(store, cursor, floor) && x.key == key
    ensures |Find(store, Some(key), floor)| < |Find(store, cursor, floor)|
  {
    var x :| x in Find(store, cursor, floor) && x.key == key;
    FindMembers(store, cursor, floor);
    if store[0] == x {
      NotMoreBelow(store[1..], cursor, floor, key);
    } else {
      FindMembers(store[1..], cursor, floor);
      assert x in Find(store[1..], cursor, floor);
      FewerBelow(store[1..], cursor, floor, key);
    }
  }

  lemma {:induction false} NotMoreBelow(store: seq<Item>, cursor: Option<Instant>, floor: Option<Instant>, key: Instant)
    requires cursor.Some? ==> key <= cursor.value
    ensures |Find(store, Some(key), floor)| <= |Find(store, cursor, floor)|
  {
    if store == [] {
    } else {
      NotMoreBelow(store[1..], cursor, floor, key);
    }
  }

  // ----- A filter by cursor keeps a suffix -----

  // How many leading records have at least this key.
  function AtLeast(items: seq<Item>, key: Instant): (n: nat)
    ensures n <= |items|
    ensures forall i | 0 <= i < n :: items[i].key >= key
    ensures n < |items| ==> items[n].key < key
  {
    if items == [] || items[0].key < key then 0 else 1 + AtLeast(items[1..], key)
  }

  lemma {:induction false} StaysDescending(store: seq<Item>, cursor: Option<Instant>, floor: Option<Instant>)
    requires Descending(store)
    ensures Descending(Find(store, cursor, floor))
  {
    if store == [] {
    } else {
      StaysDescending(store[1..], cursor, floor);
      FindMembers(store[1..], cursor, floor);
      forall x | x in Find(store[1..], cursor, floor)
        ensures x.key <= store[0].key
      {
        assert x in store[1..];
      }
    }
  }

  // A later query reads what an earlier one let through.
  lemma {:induction false} FiltersCompose(
    store: seq<Item>, cursor: Option<Instant>, floor: Option<Instant>, key: Instant)
    requires cursor.Some? ==> key <= cursor.value
    ensures Find(store, Some(key), floor) == Find(Find(store, cursor, floor), Some(key), None)
  {
    if store == [] {
    } else {
      FiltersCompose(store[1..], cursor, floor, key);
      var tail := Find(store[1..], cursor, floor);
      if Passes(store[0], cursor, floor) {
        assert Find(store, cursor, floor)[1..] == tail;
      } else {
        assert Find(store, cursor, floor) == tail;
        assert Find(store, Some(key), floor) == Find(store[1..], Some(key), floor);
      }
    }
  }

  lemma {:induction false} CursorKeepsASuffix(items: seq<Item>, key: Instant)
    requires Descending(items)
    ensures Find(items, Some(key), None) == items[AtLeast(items, key)..]
  {
    if items == [] {
    } else {
      if items[0].key >= key {
        CursorKeepsASuffix(items[1..], key);
      } else {
        forall x | x in items
          ensures x.key < key
        {
        }
        AllBelow(items, key);
      }
    }
  }

  lemma {:induction false} AllBelow(items: seq<Item>, key: Instant)
    requires forall x | x in items :: x.key < key
    ensures Find(items, Some(key), None) == items
  {
    if items == [] {
    } else {
      assert items[0] in items;
      forall x | x in items[1..]
        ensures x in items
      {
      }
      AllBelow(items[1..], key);
    }
  }

  lemma CursorDropsAPrefix(store: seq<Item>, cursor: Option<Instant>, floor: Option<Instant>, key: Instant)
    requires Descending(store) && (cursor.Some? ==> key <= cursor.value)
    ensures var rest := Find(store, cursor, floor);
      Descending(rest) && Find(store, Some(key), floor) == rest[AtLeast(rest, key)..]
  {
    StaysDescending(store, cursor, floor);
    FiltersCompose(store, cursor, floor, key);
    CursorKeepsASuffix(Find(store, cursor, floor), key);
  }

  // ----- Messages -----

  // Some page boundary falls between two messages of the same time.
  ghost predicate BoundarySplitsATie(items: seq<Item>) {
    exists k: nat {:trigger items[LIMIT_MESSAGES * k + LIMIT_MESSAGES]} ::
      LIMIT_MESSAGES * k + LIMIT_MESSAGES < |items|
      && items[LIMIT_MESSAGES * k + LIMIT_MESSAGES - 1].key == items[LIMIT_MESSAGES * k + LIMIT_MESSAGES].key
  }

  lemma TiesAfterFirstPage(items: seq<Item>)
    requires |items| > LIMIT_MESSAGES
    ensures BoundarySplitsATie(items) <==>
      items[LIMIT_MESSAGES - 1].key == items[LIMIT_MESSAGES].key || BoundarySplitsATie(items[LIMIT_MESSAGES..])
  {
    var rest := items[LIMIT_MESSAGES..];
    if BoundarySplitsATie(items) {
      var k: nat :| LIMIT_MESSAGES * k + LIMIT_MESSAGES < |items|
        && items[LIMIT_MESSAGES * k + LIMIT_MESSAGES - 1].key == items[LIMIT_MESSAGES * k + LIMIT_MESSAGES].key;
      if k > 0 {
        assert rest[LIMIT_MESSAGES * (k - 1) + LIMIT_MESSAGES] == items[LIMIT_MESSAGES * k + LIMIT_MESSAGES];
      }
    }
    if BoundarySplitsATie(rest) {
      var k: nat :| LIMIT_MESSAGES * k + LIMIT_MESSAGES < |rest|
        && rest[LIMIT_MESSAGES * k + LIMIT_MESSAGES - 1].key == rest[LIMIT_MESSAGES * k + LIMIT_MESSAGES].key;
      assert items[LIMIT_MESSAGES * (k + 1) + LIMIT_MESSAGES] == rest[LIMIT_MESSAGES * k + LIMIT_MESSAGES];
    }
    if items[LIMIT_MESSAGES - 1].key == items[LIMIT_MESSAGES].key {
      assert items[LIMIT_MESSAGES * 0 + LIMIT_MESSAGES - 1].key == items[LIMIT_MESSAGES * 0 + LIMIT_MESSAGES].key;
    }
  }

  lemma PageOf(store: seq<Item>, cursor: Option<Instant>, floor: Option<Instant>)
    ensures var rest := Find(store, cursor, floor);
      MessagePage(store, cursor, floor)
      == if |rest| <= LIMIT_MESSAGES then Page(rest, None)
         else Page(rest[..LIMIT_MESSAGES], Some(rest[LIMIT_MESSAGES - 1].key))
  {
    var rest := Find(store, cursor, floor);
    if |rest| > LIMIT_MESSAGES {
      assert rest[..LIMIT_MESSAGES + 1][..LIMIT_MESSAGES] == rest[..LIMIT_MESSAGES];
    }
  }

  // A short list is one page; a longer one is a page of twenty and what lies below its last time.
  lemma OnePageAtATime(store: seq<Item>, cursor: Option<Instant>, floor: Option<Instant>)
    ensures var rest := Find(store, cursor, floor);
      if |rest| <= LIMIT_MESSAGES then AllMessages(store, cursor, floor) == rest
      else
        var key := rest[LIMIT_MESSAGES - 1].key;
        && |Find(store, Some(key), floor)| < |rest|
        && AllMessages(store, cursor, floor) == rest[..LIMIT_MESSAGES] + AllMessages(store, Some(key), floor)
  {
    var rest := Find(store, cursor, floor);
    PageOf(store, cursor, floor);
    if |rest| > LIMIT_MESSAGES {
      assert rest[LIMIT_MESSAGES - 1] in rest;
      FewerBelow(store, cursor, floor, rest[LIMIT_MESSAGES - 1].key);
    } else {
      assert rest + [] == rest;
    }
  }

  // What a cursor leaves of a list that goes on after the page.
  lemma NextPageStarts(store: seq<Item>, cursor: Option<Instant>, floor: Option<Instant>)
    requires Descending(store) && |Find(store, cursor, floor)| > LIMIT_MESSAGES
    ensures var rest := Find(store, cursor, floor); var key := rest[LIMIT_MESSAGES - 1].key;
      var n := AtLeast(rest, key);
      && LIMIT_MESSAGES <= n && Find(store, Some(key), floor) == rest[n..]
      && (n == LIMIT_MESSAGES <==> rest[LIMIT_MESSAGES].key != key)
  {
    var rest := Find(store, cursor, floor);
    FindMembers(store, cursor, floor);
    assert rest[LIMIT_MESSAGES - 1] in rest;
    CursorDropsAPrefix(store, cursor, floor, rest[LIMIT_MESSAGES - 1].key);
  }

  lemma {:induction false} MessagesNeverGrow(store: seq<Item>, cursor: Option<Instant>, floor: Option<Instant>)
    requires Descending(store)
    ensures |AllMessages(store, cursor, floor)| <= |Find(store, cursor, floor)|
    decreases |Find(store, cursor, floor)|
  {
    var rest := Find(store, cursor, floor);
    OnePageAtATime(store, cursor, floor);
    if |rest| > LIMIT_MESSAGES {
      NextPageStarts(store, cursor, floor);
      MessagesNeverGrow(store, Some(rest[LIMIT_MESSAGES - 1].key), floor);
    }
  }

  // The pages joined are the whole list above the floor, in order and each message once,
  // exactly when no boundary after a multiple of twenty separates two messages of the same time.
  lemma {:induction false} MessagesAreComplete(store: seq<Item>, cursor: Option<Instant>, floor: Option<Instant>)
    requires Descending(store)
    ensures AllMessages(store, cursor, floor) == Find(store, cursor, floor)
      <==> !BoundarySplitsATie(Find(store, cursor, floor))
    decreases |Find(store, cursor, floor)|
  {
    var rest := Find(store, cursor, floor);
    OnePageAtATime(store, cursor, floor);
    if |rest| > LIMIT_MESSAGES {
      var key := rest[LIMIT_MESSAGES - 1].key;
      NextPageStarts(store, cursor, floor);
      TiesAfterFirstPage(rest);
      if rest[LIMIT_MESSAGES].key != key {
        MessagesAreComplete(store, Some(key), floor);
        SamePrefix(rest, AllMessages(store, Some(key), floor), LIMIT_MESSAGES);
      } else {
        MessagesNeverGrow(store, Some(key), floor);
      }
    }
  }

  // Without such a boundary exactly the messages at or above the floor are shown, and no page has more than twenty.
  lemma WhoIsShown(store: seq<Item>, cursor: Option<Instant>, floor: Option<Instant>, x: Item)
    requires Descending(store)
    ensures |MessagePage(store, cursor, floor).items| <= 20
    ensures MessagePage(store, cursor, floor).nextCursor.Some? ==> |MessagePage(store, cursor, floor).items| == 20
    ensures !BoundarySplitsATie(Find(store, None, floor)) ==>
      (x in AllMessages(store, None, floor) <==> x in store && (floor == None || floor.value <= x.key))
  {
    PageOf(store, cursor, floor);
    MessagesAreComplete(store, None, floor);
    FindMembers(store, None, floor);
  }

  lemma SamePrefix(items: seq<Item>, rest: seq<Item>, n: nat)
    requires n <= |items|
    ensures items[..n] + rest == items <==> rest == items[n..]
  {
    assert items == items[..n] + items[n..];
    assert (items[..n] + rest)[n..] == rest;
  }

  // ----- Audit logs -----

  lemma {:induction false} StaysStrict(store: seq<Item>, cursor: Option<Instant>)
    requires StrictlyDescending(store)
    ensures StrictlyDescending(Find(store, cursor, None))
  {
    if store == [] {
    } else {
      StaysStrict(store[1..], cursor);
      FindMembers(store[1..], cursor, None);
      forall x | x in Find(store[1..], cursor, None)
        ensures x.key < store[0].key
      {
        assert x in store[1..];
      }
    }
  }

  lemma FullPageEndsThePrefix(rest: seq<Item>, limit: nat)
    requires StrictlyDescending(rest) && 1 <= limit <= |rest|
    ensures AtLeast(rest, rest[limit - 1].key) == limit
  {
    var key := rest[limit - 1].key;
    assert forall i | 0 <= i < limit :: rest[i].key >= key;
    assert forall i | limit <= i < |rest| :: rest[i].key < key;
  }

  lemma OneLogPageAtATime(store: seq<Item>, cursor: Option<Instant>, limit: nat)
    requires limit >= 1
    ensures var rest := Find(store, cursor, None);
      if |rest| < limit then AllLogs(store, cursor, limit) == rest
      else
        var key := rest[limit - 1].key;
        && |Find(store, Some(key), None)| < |rest|
        && AllLogs(store, cursor, limit) == rest[..limit] + AllLogs(store, Some(key), limit)
  {
    var rest := Find(store, cursor, None);
    if |rest| >= limit {
      assert Take(rest, limit) == rest[..limit];
      FewerBelow(store, cursor, None, rest[limit - 1].key);
    }
  }

  lemma {:induction false} NoFilter(store: seq<Item>)
    ensures Find(store, None, None) == store
  {
    if store == [] {
    } else {
      NoFilter(store[1..]);
      assert store == [store[0]] + store[1..];
    }
  }

  // Every log is shown, once and in order, from the first page on.
  lemma AllLogsAreShown(store: seq<Item>, limit: nat)
    requires StrictlyDescending(store) && limit >= 1
    ensures AllLogs(store, None, limit) == store && |AuditPage(store, None, limit).items| <= limit
  {
    LogsAreComplete(store, None, limit);
    NoFilter(store);
  }

  // With unique ids the pages joined are always the whole list.
  lemma {:induction false} LogsAreComplete(store: seq<Item>, cursor: Option<Instant>, limit: nat)
    requires StrictlyDescending(store) && limit >= 1
    ensures AllLogs(store, cursor, limit) == Find(store, cursor, None)
    decreases |Find(store, cursor, None)|
  {
    var rest := Find(store, cursor, None);
    OneLogPageAtATime(store, cursor, limit);
    if |rest| >= limit {
      var key := rest[limit - 1].key;
      FindMembers(store, cursor, None);
      assert rest[limit - 1] in rest;
      CursorDropsAPrefix(store, cursor, None, key);
      StaysStrict(store, cursor);
      FullPageEndsThePrefix(rest, limit);
      LogsAreComplete(store, Some(key), limit);
      SamePrefix(rest, AllLogs(store, Some(key), limit), limit);
    }
  }
}
