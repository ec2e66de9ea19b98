// A key/value cache whose entries expire a fixed time after their creation,
// with a sweep of expired entries that lookups run periodically.
//
// The hash table (la_hash) is a map; the clock, time(NULL), is a parameter of
// the operations that read it. time_t values are unbounded integers.

module Cache {
  import opened Common

  /** struct cache_entry: the creation time and the caller's data, which may
      be NULL (None). */
  datatype Entry<V> = Entry(createdTime: int, data: Option<V>)


  /** The state of struct cache. */
  datatype CacheState<K(!new), V> = CacheState(table: map<K, Entry<V>>, lastExpirationTime: int, ttl: nat, expirationInterval: nat)

  /** is_cache_entry_expired: created at or before now - ttl. */
  predicate Expired<V>(e: Entry<V>, now: int, ttl: nat) {
    e.createdTime <= now - ttl
  }

  /** The keys cache_expire removes. */
  function ExpiredKeys<K(!new), V>(table: map<K, Entry<V>>, now: int, ttl: nat): (s: set<K>)
    ensures forall k :: k in s <==> k in table && Expired(table[k], now, ttl)
  {
    set k | k in table && Expired(table[k], now, ttl)
  }

  /** The table after cache_expire. */
  function ExpireTable<K(!new), V>(table: map<K, Entry<V>>, now: int, ttl: nat): (r: map<K, Entry<V>>)
    ensures forall k :: k in r <==> k in table && !Expired(table[k], now, ttl)
    ensures forall k :: k in r ==> r[k] == table[k]
  {
    map k | k in table && !Expired(table[k], now, ttl) :: table[k]
  }

  /** Whether cache_entry_lookup runs the sweep at time now. */
  predicate SweepDue<K(!new), V>(c: CacheState<K, V>, now: int) {
    c.lastExpirationTime + c.expirationInterval <= now
  }

  /** The state after the periodic sweep check at the start of a lookup. */
  function AfterSweepCheck<K(!new), V>(c: CacheState<K, V>, now: int): CacheState<K, V> {
    if SweepDue(c, now) then c.(table := ExpireTable(c.table, now, c.ttl), lastExpirationTime := now) else c
  }

  /** The value cache_entry_lookup returns, from the table after the sweep. */
  function LookupResult<K(!new), V>(c: CacheState<K, V>, key: K, now: int): Option<V> {
    var c1 := AfterSweepCheck(c, now);
    if key !in c1.table then None
    else if c1.table[key].createdTime + c.ttl < now then None
    else c1.table[key].data
  }

  // ---------------------------------------------------------------------------
  // Properties

  /** The sweep and the count agree: what is left plus what was counted is
      what there was. */
  lemma ExpireCount<K(!new), V>(table: map<K, Entry<V>>, now: int, ttl: nat)
    ensures |ExpireTable(table, now, ttl).Keys| + |ExpiredKeys(table, now, ttl)| == |table.Keys|
  {
    var kept := ExpireTable(table, now, ttl).Keys;
    var gone := ExpiredKeys(table, now, ttl);
    assert kept + gone == table.Keys;
    assert kept * gone == {};
    DisjointUnionSize(kept, gone);
  }

  lemma DisjointUnionSize<T>(a: set<T>, b: set<T>)
    requires a * b == {}
    ensures |a + b| == |a| + |b|
  {
    if a != {} {
      var x :| x in a;
      assert (a - {x}) + b == (a + b) - {x};
      DisjointUnionSize(a - {x}, b);
    }
  }

  /** A second sweep at the same time removes nothing. */
  lemma ExpireIdempotent<K(!new), V>(table: map<K, Entry<V>>, now: int, ttl: nat)
    ensures ExpireTable(ExpireTable(table, now, ttl), now, ttl) == ExpireTable(table, now, ttl)
    ensures ExpiredKeys(ExpireTable(table, now, ttl), now, ttl) == {}
  {
  }

  /** Lookup returns nothing for a missing key and for an entry older than
      ttl; otherwise what was stored. A sweep never removes a key a later
      check would have returned. */
  lemma LookupCases<K(!new), V>(c: CacheState<K, V>, key: K, now: int)
    ensures key !in c.table ==> LookupResult(c, key, now) == None
    ensures key in c.table && c.table[key].createdTime + c.ttl < now ==> LookupResult(c, key, now) == None
    ensures key in c.table && c.table[key].createdTime + c.ttl > now ==> LookupResult(c, key, now) == c.table[key].data
  {
  }

  /** The boundary: an entry exactly ttl old is still returned by a lookup
      that does not sweep, and is gone after a lookup that does, because the
      sweep tests <= and the lookup tests <. */
  lemma LookupBoundary<K(!new), V>(c: CacheState<K, V>, key: K, now: int)
    requires key in c.table && c.table[key].createdTime + c.ttl == now
    ensures !SweepDue(c, now) ==> LookupResult(c, key, now) == c.table[key].data
    ensures SweepDue(c, now) ==> LookupResult(c, key, now) == None && key !in AfterSweepCheck(c, now).table
  {
  }

  // ---------------------------------------------------------------------------
  // struct cache

  class Cache<K(==, !new), V> {
    var table: map<K, Entry<V>>
    var lastExpirationTime: int
    const ttl: nat
    const expirationInterval: nat

    ghost function Snapshot(): CacheState<K, V>
      reads this
    {
      CacheState(table, lastExpirationTime, ttl, expirationInterval)
    }

    /** cache_create: ttl and interval as given, an empty table, and the
        creation time (time(NULL), here now) as the last sweep. ttl and the
        interval are uint32_t. */
    constructor (ttl: nat, expirationInterval: nat, now: int)
      requires ttl < 0x1_0000_0000 && expirationInterval < 0x1_0000_0000
      ensures Snapshot() == CacheState(map[], now, ttl, expirationInterval)
    {
      this.ttl := ttl;
      this.expirationInterval := expirationInterval;
      table := map[];
      lastExpirationTime := now;
    }

    /** cache_entry_create: stores the caller's creation time and value (NULL
        allowed) under key, replacing an entry already there. */
    method EntryCreate(key: K, value: Option<V>, createdTime: int)
      modifies this
      ensures Snapshot() == old(Snapshot()).(table := old(table)[key := Entry(createdTime, value)])
    {
      table := table[key := Entry(createdTime, value)];
    }

    /** cache_entry_delete: reports whether an entry was removed. */
    method EntryDelete(key: K) returns (removed: bool)
      modifies this
      ensures removed <==> key in old(table)
      ensures Snapshot() == old(Snapshot()).(table := old(table) - {key})
    {
      removed := key in table;
      table := table - {key};
    }

    /** cache_expire: removes the entries created at or before
        currentTimestamp - ttl and returns how many there were. */
    method Expire(currentTimestamp: int) returns (count: nat)
      modifies this
      ensures count == |ExpiredKeys(old(table), currentTimestamp, ttl)|
      ensures count == |old(table).Keys| - |table.Keys|
      ensures Snapshot() == old(Snapshot()).(table := ExpireTable(old(table), currentTimestamp, ttl))
    {
      var minCreatedTime := currentTimestamp - ttl;
      var expired := set k | k in table && table[k].createdTime <= minCreatedTime;
      assert expired == ExpiredKeys(table, currentTimestamp, ttl);
      ExpireCount(table, currentTimestamp, ttl);
      count := |expired|;
      table := map k | k in table && table[k].createdTime > minCreatedTime :: table[k];
      assert table == ExpireTable(old(table), currentTimestamp, ttl);
    }

    /** cache_entry_lookup at time now. */
    method EntryLookup(key: K, now: int) returns (data: Option<V>)
      modifies this
      ensures data == LookupResult(old(Snapshot()), key, now)
      ensures Snapshot() == AfterSweepCheck(old(Snapshot()), now)
    {
      if lastExpirationTime + expirationInterval <= now {
        var expiredCnt := Expire(now);
        lastExpirationTime := now;
      }
      if key !in table {
        return None;
      } else if table[key].createdTime + ttl < now {
        return None;
      }
      return table[key].data;
    }
  }

  /** An entry created at time t is returned by any lookup before t + ttl,
      whether or not that lookup sweeps. */
  lemma CreateThenLookup<K(!new), V>(c: CacheState<K, V>, key: K, value: Option<V>, t: int, now: int)
    requires now < t + c.ttl
    ensures LookupResult(c.(table := c.table[key := Entry(t, value)]), key, now) == value
  {
  }

  /** After a delete the key is not found. */
  lemma DeleteThenLookup<K(!new), V>(c: CacheState<K, V>, key: K, now: int)
    ensures LookupResult(c.(table := c.table - {key}), key, now) == None
  {
  }
}
