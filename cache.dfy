/**
 * The TTL cache (src/utils/cache.js): a map from key to a value and its
 * expiration time. Reads at a time past the expiration evict the key; the
 * comparison is strict, so an entry is still served at its expiration time.
 * The clock is a parameter `now` (milliseconds).
 */
module Cache {
  import opened Wrappers

  /** Keys are the strings the service caches responses under. */
  type Key = string

  datatype Entry<V> = Entry(value: V, expiration: int)

  /** An entry is stale at `now` once `now` has passed its expiration. */
  predicate Stale<V>(e: Entry<V>, now: int) {
    now > e.expiration
  }

  /** What a read of `key` at `now` returns. */
  function Fresh<V>(entries: map<Key, Entry<V>>, key: Key, now: int): Option<V> {
    if key in entries && !Stale(entries[key], now) then Some(entries[key].value) else None
  }

  /** The map a read of `key` at `now` leaves: a stale entry for `key` is dropped. */
  function Evict<V>(entries: map<Key, Entry<V>>, key: Key, now: int): (m: map<Key, Entry<V>>)
    ensures forall k :: k in m <==> k in entries && !(k == key && Stale(entries[k], now))
    ensures forall k :: k in m ==> m[k] == entries[k]
  {
    if key in entries && Stale(entries[key], now) then entries - {key} else entries
  }

  /** The live entries at `now`: what `cleanup` keeps. */
  function Purge<V>(entries: map<Key, Entry<V>>, now: int): (m: map<Key, Entry<V>>)
    ensures forall k :: k in m <==> k in entries && !Stale(entries[k], now)
    ensures forall k :: k in m ==> m[k] == entries[k]
  {
    map k | k in entries && !Stale(entries[k], now) :: entries[k]
  }

  /** A value is served up to and including its expiration time, and the key is kept. */
  lemma ReadAfterSet<V>(entries: map<Key, Entry<V>>, key: Key, value: V, setAt: int, ttl: int, now: int)
    requires now <= setAt + ttl
    ensures Fresh(entries[key := Entry(value, setAt + ttl)], key, now) == Some(value)
    ensures Evict(entries[key := Entry(value, setAt + ttl)], key, now) == entries[key := Entry(value, setAt + ttl)]
  {
  }

  /** One millisecond later it is gone, and the read removes the key. */
  lemma ReadAfterExpiry<V>(entries: map<Key, Entry<V>>, key: Key, value: V, setAt: int, ttl: int, now: int)
    requires now > setAt + ttl
    ensures Fresh(entries[key := Entry(value, setAt + ttl)], key, now) == None
    ensures key !in Evict(entries[key := Entry(value, setAt + ttl)], key, now)
  {
  }

  /** Setting one key does not change what any other key reads. */
  lemma SetIsolated<V>(entries: map<Key, Entry<V>>, key: Key, other: Key, e: Entry<V>, now: int)
    requires other != key
    ensures Fresh(entries[key := e], other, now) == Fresh(entries, other, now)
  {
  }

  /**
   * Evicting or purging at `now` is invisible to every read at `now` or later:
   * it only drops entries that such reads would not serve anyway.
   */
  lemma PurgeUnobservable<V>(entries: map<Key, Entry<V>>, now: int, later: int, key: Key, k: Key)
    requires now <= later
    ensures Fresh(Purge(entries, now), k, later) == Fresh(entries, k, later)
    ensures Fresh(Evict(entries, key, now), k, later) == Fresh(entries, k, later)
  {
  }

  /** Purging twice at the same time is purging once. */
  lemma PurgeIdempotent<V>(entries: map<Key, Entry<V>>, now: int)
    ensures Purge(Purge(entries, now), now) == Purge(entries, now)
  {
  }

  /** `SimpleCache`: its `Map` is the field `entries`. */
  class SimpleCache<V> {
    var entries: map<Key, Entry<V>>

    constructor()
      ensures entries == map[]
    {
      entries := map[];
    }

    /** `set(key, value, ttl = 300000)` at time `now`: overwrites any entry for `key`. */
    method Set(key: Key, value: V, now: int, ttl: int := 300000)
      modifies this
      ensures entries == old(entries)[key := Entry(value, now + ttl)]
    {
      entries := entries[key := Entry(value, now + ttl)];
    }

    /** `get(key)` at time `now`; None stands for the `null` it returns on a miss. */
    method Get(key: Key, now: int) returns (r: Option<V>)
      modifies this
      ensures r == Fresh(old(entries), key, now)
      ensures entries == Evict(old(entries), key, now)
    {
      if key !in entries {
        return None;
      }
      var item := entries[key];
      if now > item.expiration {
        entries := entries - {key};
        return None;
      }
      r := Some(item.value);
    }

    /** `has(key)` at time `now`: evicts exactly as `get` does. */
    method Has(key: Key, now: int) returns (r: bool)
      modifies this
      ensures r == Fresh(old(entries), key, now).Some?
      ensures entries == Evict(old(entries), key, now)
    {
      if key !in entries {
        return false;
      }
      var item := entries[key];
      if now > item.expiration {
        entries := entries - {key};
        return false;
      }
      r := true;
    }

    /** `delete(key)`: reports whether the key was there and removes only it. */
    method Delete(key: Key) returns (existed: bool)
      modifies this
      ensures existed == (key in old(entries))
      ensures entries == old(entries) - {key}
    {
      existed := key in entries;
      entries := entries - {key};
    }

    /** `clear()`. */
    method Clear()
      modifies this
      ensures entries == map[]
    {
      entries := map[];
    }

    /** `cleanup()` at time `now`: visits every entry and deletes the stale ones. */
    method Cleanup(now: int)
      modifies this
      ensures entries == Purge(old(entries), now)
    {
      var pending := entries.Keys;
      while pending != {}
        invariant pending <= entries.Keys <= old(entries).Keys
        invariant forall k :: k in entries ==> entries[k] == old(entries)[k]
        invariant forall k :: k in old(entries) && k !in pending ==> (k in entries <==> !Stale(old(entries)[k], now))
        decreases pending
      {
        var key :| key in pending;
        if now > entries[key].expiration {
          entries := entries - {key};
        }
        pending := pending - {key};
      }
      assert forall k :: k in entries <==> k in Purge(old(entries), now);
    }
  }
}
