/**
 The distributed lock: SET NX with a time to live to acquire, compare-and-delete to release. Each is
 one Redis command, so any interleaving of holders is a sequence of these calls; a holder stays in
 its critical section from the call that acquires to the call that releases.
 */
module RedisLock {

  /** A lock key's value and when Redis drops it. */
  datatype Entry = Entry(value: string, expiresAt: int)

  /** A key and the value it was acquired with. */
  type Holder = (string, string)

  class Redis {
    var entries: map<string, Entry>
    ghost var clock: int
    // Who is in a critical section, with the end of their time to live, and every value ever used.
    ghost var inside: map<Holder, int>
    ghost var used: set<Holder>

    /** A holder whose time to live has not run out owns the key. */
    ghost predicate Valid()
      reads this
    {
      && inside.Keys <= used
      && (forall k :: k in entries ==> (k, entries[k].value) in used)
      && (forall h :: h in inside && clock < inside[h] ==> h.0 in entries && entries[h.0] == Entry(h.1, inside[h]))
    }

    predicate Taken(key: string, now: int)
      reads this
    {
      key in entries && now < entries[key].expiresAt
    }

    constructor (now: int)
      ensures Valid() && clock == now && entries == map[] && inside == map[] && used == {}
    {
      entries, clock, inside, used := map[], now, map[], {};
    }

    method AcquireLock(key: string, value: string, ttl: nat, now: int) returns (ok: bool)
      requires Valid() && clock <= now && ttl > 0 && (key, value) !in used
      modifies this
      ensures Valid() && clock == now
      ensures ok == !old(Taken(key, now))
      ensures entries == if ok then old(entries)[key := Entry(value, now + ttl)] else old(entries)
      ensures inside == if ok then old(inside)[(key, value) := now + ttl] else old(inside)
      ensures used == if ok then old(used) + {(key, value)} else old(used)
    {
      clock := now;
      ok := !(key in entries && now < entries[key].expiresAt);
      if ok {
        entries := entries[key := Entry(value, now + ttl)];
        inside, used := inside[(key, value) := now + ttl], used + {(key, value)};
      }
    }

    /** Deletes the key only if it still carries the caller's value: nobody else's lock is touched. */
    method ReleaseLock(key: string, value: string, now: int)
      requires Valid() && clock <= now && (key, value) in inside
      modifies this
      ensures Valid() && clock == now && inside == old(inside) - {(key, value)} && used == old(used)
      ensures entries == if old(Taken(key, now)) && old(entries)[key].value == value then old(entries) - {key}
                         else old(entries)
      ensures forall h :: h in inside && now < inside[h] ==>
                h.0 in old(entries) && h.0 in entries && entries[h.0] == old(entries)[h.0]
    {
      clock := now;
      inside := inside - {(key, value)};
      if key in entries && now < entries[key].expiresAt && entries[key].value == value {
        entries := entries - {key};
      }
    }
  }

  /** Of two holders of a key inside their sections at the same time, at most one is within its time to live. */
  lemma AtMostOneInTime(redis: Redis, key: string, v: string, w: string)
    requires redis.Valid() && (key, v) in redis.inside && (key, w) in redis.inside
    requires redis.clock < redis.inside[(key, v)] && redis.clock < redis.inside[(key, w)]
    ensures v == w
  {
    assert redis.entries[key] == Entry(v, redis.inside[(key, v)]);
    assert redis.entries[key] == Entry(w, redis.inside[(key, w)]);
  }

  /** A section that outlives its time to live is no longer alone. */
  method LateHolderOverlaps(key: string) returns (redis: Redis)
    ensures fresh(redis) && redis.Valid()
    ensures (key, "A") in redis.inside && (key, "B") in redis.inside
  {
    redis := new Redis(0);
    var a := redis.AcquireLock(key, "A", 10, 0);
    var b := redis.AcquireLock(key, "B", 10, 10);
  }
}
