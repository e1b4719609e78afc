// The per-event rate limit of the chat gateway
// (src/modules/realtime/realtime-chat-command.service.ts:65-81, src/redis/redis.service.ts:122-134).
module RateLimit {
  import opened Common
  import opened RedisCounters
  import opened Sequences

  function Step(key: Option<Counter>, windowSeconds: nat, at: Instant): Option<Counter> {
    Some(IncrWithTtl(key, at, windowSeconds))
  }

  predicate Accepted(key: Option<Counter>, limit: nat, windowSeconds: nat, at: Instant) {
    IncrWithTtl(key, at, windowSeconds).count <= limit
  }

  function Run(key: Option<Counter>, windowSeconds: nat, times: seq<Instant>): Option<Counter>
    decreases |times|
  {
    if times == [] then key else Run(Step(key, windowSeconds, times[0]), windowSeconds, times[1..])
  }

  // How many of these events are accepted at a time in [from, to).
  function AcceptedIn(
    key: Option<Counter>, limit: nat, windowSeconds: nat, times: seq<Instant>, from: Instant, to: Instant)
    : nat
    decreases |times|
  {
    if times == [] then 0
    else
      (if from <= times[0] < to && Accepted(key, limit, windowSeconds, times[0]) then 1 else 0)
      + AcceptedIn(Step(key, windowSeconds, times[0]), limit, windowSeconds, times[1..], from, to)
  }

  predicate Ordered(now: Instant, times: seq<Instant>) {
    && (forall i | 0 <= i < |times| :: now <= times[i])
    && (forall i, j | 0 <= i < j < |times| :: times[i] <= times[j])
  }

  function Left(key: Option<Counter>, limit: nat): nat {
    if key.Some? && key.value.count <= limit then limit - key.value.count else 0
  }

  // A window that starts at or after `from` is the last one with a share of [from, from + windowSeconds).
  lemma {:induction false} LastWindow(key: Option<Counter>, limit: nat, windowSeconds: nat, times: seq<Instant>,
                                      now: Instant, from: Instant)
    requires key.Some? && Ordered(now, times) && key.value.expiresAt - windowSeconds >= from
    ensures AcceptedIn(key, limit, windowSeconds, times, from, from + windowSeconds) <= Left(key, limit)
    decreases |times|
  {
    if times == [] {
    } else {
      assert Ordered(times[0], times[1..]);
      LastWindow(Step(key, windowSeconds, times[0]), limit, windowSeconds, times[1..], times[0], from);
      if !Live(key, times[0]) {
        NothingBefore(Step(key, windowSeconds, times[0]), limit, windowSeconds, times[1..], times[0], from);
      }
    }
  }

  lemma {:induction false} NothingBefore(key: Option<Counter>, limit: nat, windowSeconds: nat, times: seq<Instant>,
                                         now: Instant, from: Instant)
    requires Ordered(now, times) && now >= from + windowSeconds
    ensures AcceptedIn(key, limit, windowSeconds, times, from, from + windowSeconds) == 0
    decreases |times|
  {
    if times == [] {
    } else {
      assert Ordered(times[0], times[1..]);
      NothingBefore(Step(key, windowSeconds, times[0]), limit, windowSeconds, times[1..], times[0], from);
    }
  }

  // A window that started before `from` leaves room for one more.
  lemma {:induction false} TwoWindows(key: Option<Counter>, limit: nat, windowSeconds: nat, times: seq<Instant>,
                                      now: Instant, from: Instant)
    requires key.Some? && Ordered(now, times) && key.value.expiresAt - windowSeconds < from && limit >= 1
    requires key.value.count >= 1
    ensures AcceptedIn(key, limit, windowSeconds, times, from, from + windowSeconds)
         <= limit + if key.value.expiresAt > from then Left(key, limit) else limit - 1
    decreases |times|
  {
    if times == [] {
    } else {
      var next := Step(key, windowSeconds, times[0]);
      assert Ordered(times[0], times[1..]);
      if next.value.expiresAt - windowSeconds < from {
        TwoWindows(next, limit, windowSeconds, times[1..], times[0], from);
      } else {
        LastWindow(next, limit, windowSeconds, times[1..], times[0], from);
      }
    }
  }

  // From a fresh key, no half-open interval as long as the window sees more than 2 * limit - 1 accepted events.
  lemma IntervalBound(limit: nat, windowSeconds: nat, times: seq<Instant>, from: Instant)
    requires limit >= 1 && (forall i, j | 0 <= i < j < |times| :: times[i] <= times[j])
    ensures AcceptedIn(None, limit, windowSeconds, times, from, from + windowSeconds) <= 2 * limit - 1
  {
    if times == [] {
    } else {
      var first := Step(None, windowSeconds, times[0]);
      assert Ordered(times[0], times[1..]);
      if times[0] < from {
        TwoWindows(first, limit, windowSeconds, times[1..], times[0], from);
      } else {
        LastWindow(first, limit, windowSeconds, times[1..], times[0], from);
      }
    }
  }

  // Within one counting window at most `limit` events are accepted.
  lemma WindowBound(limit: nat, windowSeconds: nat, first: Instant, times: seq<Instant>)
    requires limit >= 1 && Ordered(first, times)
    ensures AcceptedIn(None, limit, windowSeconds, [first] + times, first, first + windowSeconds) <= limit
  {
    assert ([first] + times)[1..] == times;
    LastWindow(Step(None, windowSeconds, first), limit, windowSeconds, times, first, first);
  }

  // ----- The bound is attained -----

  // n events at one instant inside [from, to): all are accepted while there is room.
  lemma {:induction false} BurstAccepted(key: Option<Counter>, limit: nat, windowSeconds: nat, n: nat, at: Instant,
                                         rest: seq<Instant>, from: Instant, to: Instant)
    requires Live(key, at) && key.value.count + n <= limit && from <= at < to
    ensures AcceptedIn(key, limit, windowSeconds, Repeat<Instant>(n, at) + rest, from, to)
            == n + AcceptedIn(Some(key.value.(count := key.value.count + n)), limit, windowSeconds, rest, from, to)
    decreases n
  {
    if n == 0 {
      assert Repeat<Instant>(n, at) + rest == rest;
      assert key == Some(Counter(key.value.count, key.value.expiresAt));
    } else {
      assert (Repeat<Instant>(n, at) + rest)[1..] == Repeat<Instant>(n - 1, at) + rest;
      BurstAccepted(Step(key, windowSeconds, at), limit, windowSeconds, n - 1, at, rest, from, to);
    }
  }

  // One event at 0, the rest of the first window just before it ends, and the whole next window right after:
  // 2 * limit - 1 events within windowSeconds.
  lemma {:induction false} BoundIsAttained(limit: nat, windowSeconds: nat)
    requires limit >= 1 && windowSeconds >= 2
    ensures var times := [0] + Repeat<Instant>(limit - 1, windowSeconds - 1) + Repeat<Instant>(limit, windowSeconds);
      AcceptedIn(None, limit, windowSeconds, times, 1, 1 + windowSeconds) == 2 * limit - 1
  {
    var late, next := Repeat<Instant>(limit - 1, windowSeconds - 1), Repeat<Instant>(limit, windowSeconds);
    var times := [0] + late + next;
    assert times[1..] == late + next && times[0] == 0;
    var first := Step(None, windowSeconds, 0);
    BurstAccepted(first, limit, windowSeconds, limit - 1, windowSeconds - 1, next, 1, 1 + windowSeconds);
    NextWindowFills(limit, windowSeconds);
  }

  lemma {:induction false} NextWindowFills(limit: nat, windowSeconds: nat)
    requires limit >= 1 && windowSeconds >= 2
    ensures AcceptedIn(Some(Counter(limit, windowSeconds)), limit, windowSeconds, Repeat<Instant>(limit, windowSeconds),
                       1, 1 + windowSeconds) == limit
  {
    var full := Some(Counter(limit, windowSeconds));
    BurstAlone(Step(full, windowSeconds, windowSeconds), limit, windowSeconds, limit - 1, windowSeconds,
               1, 1 + windowSeconds);
    FirstThenRest(
      full, limit, windowSeconds, windowSeconds, Repeat<Instant>(limit - 1, windowSeconds), 1, 1 + windowSeconds);
  }

  lemma {:induction false} BurstAlone(key: Option<Counter>, limit: nat, windowSeconds: nat, n: nat, at: Instant,
                                      from: Instant, to: Instant)
    requires Live(key, at) && key.value.count + n <= limit && from <= at < to
    ensures AcceptedIn(key, limit, windowSeconds, Repeat<Instant>(n, at), from, to) == n
    decreases n
  {
    if n > 0 {
      BurstAlone(Step(key, windowSeconds, at), limit, windowSeconds, n - 1, at, from, to);
      FirstThenRest(key, limit, windowSeconds, at, Repeat<Instant>(n - 1, at), from, to);
    }
  }

  lemma FirstThenRest(key: Option<Counter>, limit: nat, windowSeconds: nat, at: Instant, rest: seq<Instant>,
                      from: Instant, to: Instant)
    ensures AcceptedIn(key, limit, windowSeconds, [at] + rest, from, to)
         == (if from <= at < to && Accepted(key, limit, windowSeconds, at) then 1 else 0)
            + AcceptedIn(Step(key, windowSeconds, at), limit, windowSeconds, rest, from, to)
  {
    assert ([at] + rest)[1..] == rest;
  }

  // ----- Waiting as told -----

  lemma {:induction false} DeadlineStays(key: Option<Counter>, windowSeconds: nat, times: seq<Instant>)
    requires key.Some? && (forall i | 0 <= i < |times| :: times[i] < key.value.expiresAt)
    ensures Run(key, windowSeconds, times).Some?
    ensures Run(key, windowSeconds, times).value.expiresAt == key.value.expiresAt
    decreases |times|
  {
    if times == [] {
    } else {
      var next := Step(key, windowSeconds, times[0]);
      forall i | 0 <= i < |times[1..]|
        ensures times[1..][i] < next.value.expiresAt
      {
        assert times[1..][i] == times[i + 1];
      }
      DeadlineStays(next, windowSeconds, times[1..]);
    }
  }

  // Whatever was tried in the meantime, the first event after the announced wait is accepted.
  lemma WaitingIsEnough(
    key: Option<Counter>, limit: nat, windowSeconds: nat, at: Instant, times: seq<Instant>, later: Instant)
    requires limit >= 1 && windowSeconds >= 1 && !Accepted(key, limit, windowSeconds, at)
    requires var wait := IncrWithTtl(key, at, windowSeconds).expiresAt - at;
      later >= at + wait && (forall i | 0 <= i < |times| :: at <= times[i] < at + wait)
    ensures Accepted(Run(Step(key, windowSeconds, at), windowSeconds, times), limit, windowSeconds, later)
  {
    DeadlineStays(Step(key, windowSeconds, at), windowSeconds, times);
  }

  datatype LimitState = Free | Limited(retryAfterSeconds: nat)

  class EventLimiter {
    var counters: map<(Id, string), Counter>   // one key per user and event name

    constructor ()
      ensures counters == map[]
    {
      counters := map[];
    }

    ghost function KeyOf(user: Id, event: string): Option<Counter>
      reads this
    {
      if (user, event) in counters then Some(counters[(user, event)]) else None
    }

    // An event counts against its own key only.
    method GetEventRateLimitState(user: Id, event: string, limit: nat, windowSeconds: nat, now: Instant)
      returns (r: LimitState)
      requires windowSeconds >= 1
      modifies this
      ensures r.Free? <==> Accepted(old(KeyOf(user, event)), limit, windowSeconds, now)
      ensures r.Limited? ==>
                now + r.retryAfterSeconds == IncrWithTtl(old(KeyOf(user, event)), now, windowSeconds).expiresAt
      ensures KeyOf(user, event) == Step(old(KeyOf(user, event)), windowSeconds, now)
      ensures forall u: Id, e | (u, e) != (user, event) :: KeyOf(u, e) == old(KeyOf(u, e))
    {
      var key := (user, event);
      var counter := IncrWithTtl(if key in counters then Some(counters[key]) else None, now, windowSeconds);
      counters := counters[key := counter];
      if counter.count <= limit {
        return Free;
      }
      var ttl := counter.expiresAt - now;
      r := Limited(Max(ttl, 1));
    }
  }
}
