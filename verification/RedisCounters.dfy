// The Redis counter behind login lockout and rate limits (src/redis/redis.service.ts:122-141).
module RedisCounters {
  import opened Common

  // A counter key and the second in which it expires.
  datatype Counter = Counter(count: nat, expiresAt: Instant)

  predicate Live(key: Option<Counter>, now: Instant) {
    key.Some? && now < key.value.expiresAt
  }

  // INCR followed by EXPIRE NX: only a key that has no expiry yet gets one.
  function IncrWithTtl(key: Option<Counter>, now: Instant, ttlSeconds: nat): Counter {
    if Live(key, now) then Counter(key.value.count + 1, key.value.expiresAt) else Counter(1, now + ttlSeconds)
  }
}
