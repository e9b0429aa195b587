/**
 * The time-expiring response cache of pkg/pokecache: a map from request
 * addresses to byte payloads, each entry stamped with the absolute time after
 * which it is stale. Time is an integer number of nanoseconds passed in by the
 * caller; the ticker, the goroutine and the read/write lock are not modelled.
 */
module PokeCache {
  import opened Wrappers

  newtype byte = x: int | 0 <= x < 256

  /** cacheEntry: the payload and its absolute expiry time. */
  datatype Entry = Entry(expTime: int, val: seq<byte>)

  type Entries = map<string, Entry>

  /** `time.Now().After(expTime)`: an entry is stale only strictly after its expiry time. */
  predicate Expired(e: Entry, now: int)
  {
    now > e.expTime
  }

  /** What a read of `key` at time `now` can observe: the payload of a live entry, or nothing. */
  function Lookup(m: Entries, key: string, now: int): Option<seq<byte>>
  {
    if key in m && !Expired(m[key], now) then Some(m[key].val) else None
  }

  /** The map after storing `val` under `key` at time `now` with the cache's fixed expiration. */
  function Put(m: Entries, key: string, val: seq<byte>, now: int, expiration: nat): Entries
  {
    m[key := Entry(now + expiration, val)]
  }

  /** The map after a read of `key` at `now`: a read that misses leaves no entry for `key` behind. */
  function AfterGet(m: Entries, key: string, now: int): Entries
  {
    if Lookup(m, key, now).Some? then m else m - {key}
  }

  /** The map after a sweep at `now`: exactly the entries that are not stale, unchanged. */
  function Swept(m: Entries, now: int): Entries
  {
    map k | k in m && !Expired(m[k], now) :: m[k]
  }

  class Cache {
    var cacheMap: Entries
    const expiration: nat

    /** NewCache: an empty map with the given expiration; `time.NewTicker` refuses a non-positive period. */
    constructor (expiration: int)
      requires expiration > 0
      ensures cacheMap == map[]
      ensures this.expiration == expiration
    {
      cacheMap := map[];
      this.expiration := expiration;
    }

    /** Add: insert or overwrite the entry for `key`, expiring `expiration` after `now`. */
    method Add(key: string, val: seq<byte>, now: int)
      modifies this
      ensures cacheMap == old(cacheMap)[key := Entry(now + expiration, val)]
    {
      cacheMap := cacheMap[key := Entry(now + expiration, val)];
    }

    /** Get: a live entry is a hit and nothing changes; a stale entry is deleted and is a miss. */
    method Get(key: string, now: int) returns (val: seq<byte>, found: bool)
      modifies this
      ensures found <==> key in old(cacheMap) && now <= old(cacheMap)[key].expTime
      ensures key !in old(cacheMap) ==> !found && val == [] && cacheMap == old(cacheMap)
      ensures found ==> val == old(cacheMap)[key].val && cacheMap == old(cacheMap)
      ensures !found ==> val == [] && cacheMap == old(cacheMap) - {key}
      ensures cacheMap == AfterGet(old(cacheMap), key, now)
      ensures Lookup(old(cacheMap), key, now) == if found then Some(val) else None
    {
      if key in cacheMap {
        var ce := cacheMap[key];
        if now > ce.expTime {
          cacheMap := cacheMap - {key};
          return [], false;
        }
        return ce.val, true;
      }
      return [], false;
    }

    /** One pass of ReadLoop: visit every key once and delete the stale ones. */
    method Sweep(now: int)
      modifies this
      ensures cacheMap == Swept(old(cacheMap), now)
      ensures forall k :: k in cacheMap <==> k in old(cacheMap) && now <= old(cacheMap)[k].expTime
    {
      var pending := cacheMap.Keys;
      while pending != {}
        invariant pending <= old(cacheMap).Keys
        invariant cacheMap == map k | k in old(cacheMap) && (k in pending || !Expired(old(cacheMap)[k], now)) :: old(cacheMap)[k]
        decreases pending
      {
        var k :| k in pending;
        if now > cacheMap[k].expTime {
          cacheMap := cacheMap - {k};
        }
        pending := pending - {k};
      }
    }
  }

  // ----- What the operations promise, stated over the map values -----

  /** A read at any time up to `now + expiration` after an Add sees the added payload. */
  lemma AddThenGetHits(m: Entries, key: string, val: seq<byte>, now: int, expiration: nat, later: int)
    requires later <= now + expiration
    ensures Lookup(Put(m, key, val, now, expiration), key, later) == Some(val)
  {
  }

  /** A read strictly after `now + expiration` misses, and removes the entry. */
  lemma AddThenGetExpires(m: Entries, key: string, val: seq<byte>, now: int, expiration: nat, later: int)
    requires later > now + expiration
    ensures Lookup(Put(m, key, val, now, expiration), key, later) == None
    ensures key !in AfterGet(Put(m, key, val, now, expiration), key, later)
  {
  }

  /** A second Add resets the expiry: the entry lives until the second time plus the expiration. */
  lemma OverwriteResetsExpiry(m: Entries, key: string, v1: seq<byte>, t1: int, v2: seq<byte>, t2: int,
                              expiration: nat, later: int)
    requires later <= t2 + expiration
    ensures Lookup(Put(Put(m, key, v1, t1, expiration), key, v2, t2, expiration), key, later) == Some(v2)
  {
  }

  /** Adding, reading or deleting one key never changes what another key shows at any time. */
  lemma OtherKeysIndependent(m: Entries, key: string, other: string, val: seq<byte>, now: int,
                             expiration: nat, t: int)
    requires other != key
    ensures Lookup(Put(m, key, val, now, expiration), other, t) == Lookup(m, other, t)
    ensures Lookup(AfterGet(m, key, now), other, t) == Lookup(m, other, t)
  {
  }

  /** The delete a read performs is invisible to every read at the same time or later. */
  lemma GetDeletesOnlyStale(m: Entries, key: string, now: int, other: string, later: int)
    requires now <= later
    ensures Lookup(AfterGet(m, key, now), other, later) == Lookup(m, other, later)
  {
  }

  /** A sweep removes every stale entry, keeps the rest unchanged, and is invisible to later reads. */
  lemma SweepKeepsExactlyLive(m: Entries, now: int, key: string, later: int)
    requires now <= later
    ensures key in Swept(m, now) <==> key in m && m[key].expTime >= now
    ensures key in Swept(m, now) ==> Swept(m, now)[key] == m[key]
    ensures Lookup(Swept(m, now), key, later) == Lookup(m, key, later)
  {
  }

  /** Sweeping twice at the same time is the same as sweeping once. */
  lemma SweepIdempotent(m: Entries, now: int)
    ensures Swept(Swept(m, now), now) == Swept(m, now)
  {
  }

  /** A later sweep subsumes an earlier one. */
  lemma SweepMonotone(m: Entries, t1: int, t2: int)
    requires t1 <= t2
    ensures Swept(Swept(m, t1), t2) == Swept(m, t2)
  {
  }
}
