/**
 * A key-value cache whose entries expire a fixed time after they were last
 * written or read, bounded in size by evicting expired entries first and
 * then the oldest quarter, and counting hits and misses. The clock is the
 * explicit `now` argument of every operation that reads it.
 */
module TtlCache {
  import opened Wrappers

  /** Default lifetime of an entry, in seconds. */
  const DefaultCacheLifetime: real := 300.0

  /** Default maximum number of entries. */
  const MaxCacheSize: int := 100

  /**
   * A stored value with the time it was last touched and how long it lives.
   * The value is optional because any value, including None, can be stored.
   */
  datatype CacheItem<T> = CacheItem(value: Option<T>, timestamp: real, lifetime: real)
  {
    /** Expiry is strict: the item is still live at exactly timestamp + lifetime. */
    predicate IsExpired(now: real)
      ensures lifetime >= 0.0 && now <= timestamp ==> !IsExpired(now)
      ensures lifetime >= 0.0 && IsExpired(now) ==> now > timestamp
    {
      now > timestamp + lifetime
    }

    /** The same item, touched at `now`. */
    function Refresh(now: real): (r: CacheItem<T>)
      ensures r.value == value && r.lifetime == lifetime && r.timestamp == now
      ensures lifetime >= 0.0 ==> !r.IsExpired(now)
    {
      this.(timestamp := now)
    }
  }

  /** An item is live up to and including its deadline, and expired just after it. */
  lemma ExpiryIsStrict<T>(item: CacheItem<T>, later: real)
    requires later > 0.0
    ensures !item.IsExpired(item.timestamp + item.lifetime)
    ensures item.IsExpired(item.timestamp + item.lifetime + later)
  {
  }

  /** The entries of a store that have not expired at `now`. */
  function Unexpired<K, T>(store: map<K, CacheItem<T>>, now: real): (r: map<K, CacheItem<T>>)
    ensures r.Keys <= store.Keys
    ensures forall k :: k in store ==> (k in r <==> !store[k].IsExpired(now))
    ensures forall k :: k in r ==> r[k] == store[k]
  {
    map k | k in store && !store[k].IsExpired(now) :: store[k]
  }

  /** How many of the oldest entries a cleanup removes: a quarter, and at least one. */
  function EvictionCount(n: nat): (r: nat)
    ensures r >= 1 && (n >= 4 ==> r * 4 <= n < r * 4 + 4)
    ensures n >= 1 ==> r <= n
  {
    if n / 4 > 1 then n / 4 else 1
  }

  /** What `get` returns: the stored value of a live entry, None for an absent or expired one. */
  function Lookup<K, T>(store: map<K, CacheItem<T>>, key: K, now: real): (r: Option<T>)
    ensures key !in store ==> r.None?
    ensures key in store && store[key].IsExpired(now) ==> r.None?
    ensures r.Some? ==> key in store && !store[key].IsExpired(now) && r == store[key].value
  {
    if key in store && !store[key].IsExpired(now) then store[key].value else None
  }

  /**
   * A live entry holding None reads exactly as a key that was never stored,
   * so a caller of `get` cannot tell the two apart.
   */
  lemma StoredNoneLooksLikeMiss<K, T>(store: map<K, CacheItem<T>>, key: K, now: real, lifetime: real)
    requires lifetime >= 0.0
    ensures Lookup(store[key := CacheItem(None, now, lifetime)], key, now) == Lookup(store - {key}, key, now)
  {
  }

  /** hits / (hits + misses), and 0 before any request. */
  function HitRatio(hits: nat, misses: nat): (r: real)
    ensures hits + misses == 0 ==> r == 0.0
    ensures hits + misses > 0 ==> r * (hits + misses) as real == hits as real
    ensures 0.0 <= r <= 1.0
  {
    if hits + misses > 0 then hits as real / (hits + misses) as real else 0.0
  }

  /** The figures `get_stats` reports. */
  datatype CacheStats = CacheStats(
    size: nat, maxSize: int, hitCount: nat, missCount: nat, hitRatio: real, hitPercentage: real)

  /** Some entry is no newer than any other in a non-empty store. */
  lemma {:induction false} OldestExists<K, T>(store: map<K, CacheItem<T>>)
    requires |store| > 0
    ensures exists k :: k in store && IsOldest(store, k)
    decreases |store|
  {
    var x :| x in store;
    var rest := store - {x};
    assert |rest| == |store| - 1;
    if |rest| == 0 {
      forall j | j in store ensures store[x].timestamp <= store[j].timestamp {
        assert j !in rest;
      }
      assert IsOldest(store, x);
    } else {
      OldestExists(rest);
      var y :| y in rest && IsOldest(rest, y);
      if store[x].timestamp <= store[y].timestamp {
        forall j | j in store ensures store[x].timestamp <= store[j].timestamp {
          if j != x { assert j in rest; }
        }
        assert IsOldest(store, x);
      } else {
        forall j | j in store ensures store[y].timestamp <= store[j].timestamp {
          if j != x { assert j in rest; }
        }
        assert IsOldest(store, y);
      }
    }
  }

  predicate IsOldest<K, T>(store: map<K, CacheItem<T>>, k: K)
    requires k in store
  {
    forall j :: j in store ==> store[k].timestamp <= store[j].timestamp
  }

  /**
   * What a cleanup may leave of `before`: only unexpired entries, unchanged;
   * all of them when fewer than `maxSize` are live; otherwise all but the
   * EvictionCount oldest (none when fewer are live), every removed live
   * entry being no newer than every kept one.
   */
  ghost predicate CleanedUp<K, T>(before: map<K, CacheItem<T>>, after: map<K, CacheItem<T>>, now: real, maxSize: int) {
    var live := Unexpired(before, now);
    var n := |live|;
    && after.Keys <= live.Keys
    && (forall k :: k in after ==> after[k] == before[k])
    && (n < maxSize ==> after == live)
    && (n >= maxSize ==> |after| == n - (if EvictionCount(n) < n then EvictionCount(n) else n))
    && (forall e, k :: e in live && e !in after && k in after ==> before[e].timestamp <= after[k].timestamp)
  }

  /**
   * What `set` does when it writes `item` under `key`: `cleaned` is
   * `before` itself, or what a cleanup left of it when `before` was full,
   * and `after` is `cleaned` with the entry written.
   */
  ghost predicate WrittenThrough<K, T>(
    before: map<K, CacheItem<T>>, cleaned: map<K, CacheItem<T>>, after: map<K, CacheItem<T>>,
    key: K, item: CacheItem<T>, now: real, maxSize: int)
  {
    && (|before| < maxSize ==> cleaned == before)
    && (|before| >= maxSize ==> CleanedUp(before, cleaned, now, maxSize))
    && after == cleaned[key := item]
  }

  /** The store `get` leaves: an expired entry deleted, a live one refreshed, otherwise unchanged. */
  function AfterGet<K, T>(store: map<K, CacheItem<T>>, key: K, now: real): map<K, CacheItem<T>> {
    if key !in store then store
    else if store[key].IsExpired(now) then store - {key}
    else store[key := store[key].Refresh(now)]
  }

  lemma {:induction false} SubsetIsSmaller<K>(a: set<K>, b: set<K>)
    requires a <= b
    ensures |a| <= |b|
    decreases |b|
  {
    if b != {} {
      var x :| x in b;
      SubsetIsSmaller(a - {x}, b - {x});
    }
  }

  class Cache<K(==), T> {
    var store: map<K, CacheItem<T>>
    var maxSize: int
    var defaultLifetime: real
    var hitCount: nat
    var missCount: nat

    /** An empty cache with zeroed counters. */
    constructor (maxSize: int := MaxCacheSize, defaultLifetime: real := DefaultCacheLifetime)
      ensures store == map[] && hitCount == 0 && missCount == 0
      ensures this.maxSize == maxSize && this.defaultLifetime == defaultLifetime
    {
      store := map[];
      this.maxSize := maxSize;
      this.defaultLifetime := defaultLifetime;
      hitCount := 0;
      missCount := 0;
    }

    /**
     * The stored value under `key` if it is live; a live hit refreshes the
     * entry's timestamp to `now`, an expired entry is deleted. Absent and
     * expired keys count a miss, live ones a hit.
     */
    method Get(key: K, now: real) returns (r: Option<T>)
      modifies this
      ensures r == Lookup(old(store), key, now)
      ensures maxSize == old(maxSize) && defaultLifetime == old(defaultLifetime)
      ensures key !in old(store) ==>
        store == old(store) && hitCount == old(hitCount) && missCount == old(missCount) + 1
      ensures key in old(store) && old(store)[key].IsExpired(now) ==>
        store == old(store) - {key} && hitCount == old(hitCount) && missCount == old(missCount) + 1
      ensures key in old(store) && !old(store)[key].IsExpired(now) ==>
        store == old(store)[key := old(store)[key].Refresh(now)]
        && hitCount == old(hitCount) + 1 && missCount == old(missCount)
      ensures store == AfterGet(old(store), key, now)
    {
      if key in store {
        var item := store[key];
        if item.IsExpired(now) {
          store := store - {key};
          missCount := missCount + 1;
          return None;
        }
        hitCount := hitCount + 1;
        store := store[key := item.Refresh(now)];
        return item.value;
      }
      missCount := missCount + 1;
      return None;
    }

    /**
     * Stores `value` under `key` with the given lifetime, or the default one.
     * A full cache is cleaned up first, even when `key` is already present.
     */
    method Set(key: K, value: Option<T>, lifetime: Option<real>, now: real)
      modifies this
      ensures key in store && store[key] == CacheItem(value, now, lifetime.GetOr(defaultLifetime))
      ensures maxSize == old(maxSize) && defaultLifetime == old(defaultLifetime)
      ensures hitCount == old(hitCount) && missCount == old(missCount)
      ensures forall k :: k in store && k != key ==> k in old(store) && store[k] == old(store)[k]
      ensures exists cleaned :: WrittenThrough(old(store), cleaned, store, key, CacheItem(value, now, lifetime.GetOr(defaultLifetime)), now, maxSize)
      ensures maxSize >= 1 && old(|store|) <= maxSize ==> |store| <= maxSize
    {
      ghost var before := store;
      if |store| >= maxSize {
        Cleanup(now);
        assert CleanedUp(before, store, now, maxSize);
        ghost var n := |Unexpired(before, now)|;
        assert n <= |before| by {
          assert |Unexpired(before, now).Keys| <= |before.Keys| by {
            SubsetIsSmaller(Unexpired(before, now).Keys, before.Keys);
          }
        }
        assert maxSize >= 1 && |before| <= maxSize ==> |store| < maxSize;
      }
      ghost var cleaned := store;
      store := store[key := CacheItem(value, now, lifetime.GetOr(defaultLifetime))];
      assert WrittenThrough(before, cleaned, store, key, CacheItem(value, now, lifetime.GetOr(defaultLifetime)), now, maxSize);
    }

    /**
     * Removes every expired entry; if the cache is still full, removes the
     * EvictionCount oldest of the rest (all of them when there are fewer),
     * and nothing else.
     */
    method Cleanup(now: real)
      modifies this`store
      ensures CleanedUp(old(store), store, now, maxSize)
    {
      store := Unexpired(store, now);
      ghost var live := store;
      if |store| >= maxSize {
        var count := |store|;
        var toRemove := EvictionCount(count);
        var i := 0;
        while i < toRemove
          invariant 0 <= i <= toRemove
          invariant store.Keys <= live.Keys
          invariant forall k :: k in store ==> store[k] == live[k]
          invariant |store| == count - (if i < count then i else count)
          invariant forall e, k :: e in live && e !in store && k in store ==>
            live[e].timestamp <= store[k].timestamp
        {
          if i < count {
            OldestExists(store);
            var oldest :| oldest in store && IsOldest(store, oldest);
            store := store - {oldest};
          }
          i := i + 1;
        }
      }
    }

    /** Empties the store; the counters keep their values. */
    method Clear()
      modifies this
      ensures store == map[]
      ensures maxSize == old(maxSize) && defaultLifetime == old(defaultLifetime)
      ensures hitCount == old(hitCount) && missCount == old(missCount)
    {
      store := map[];
    }

    /** Deletes `key`; true exactly when it was present. */
    method Remove(key: K) returns (removed: bool)
      modifies this
      ensures removed <==> key in old(store)
      ensures store == old(store) - {key}
      ensures maxSize == old(maxSize) && defaultLifetime == old(defaultLifetime)
      ensures hitCount == old(hitCount) && missCount == old(missCount)
    {
      if key in store {
        store := store - {key};
        return true;
      }
      return false;
    }

    /** Size, bound, counters and the hit ratio (also as a percentage). */
    function GetStats(): (r: CacheStats)
      reads this
      ensures r.size == |store| && r.maxSize == maxSize
      ensures r.hitCount == hitCount && r.missCount == missCount
      ensures 0.0 <= r.hitRatio <= 1.0 && r.hitPercentage == r.hitRatio * 100.0
      ensures hitCount + missCount > 0 ==> r.hitRatio * (hitCount + missCount) as real == hitCount as real
    {
      var ratio := HitRatio(hitCount, missCount);
      CacheStats(|store|, maxSize, hitCount, missCount, ratio, ratio * 100.0)
    }

    /**
     * The cached value when `get` yields one; otherwise the value of
     * `compute`, which is then stored. A live entry holding None counts as
     * a hit, is refreshed, and is then recomputed and overwritten.
     */
    method GetOrCompute(key: K, compute: () -> Option<T>, lifetime: Option<real>, now: real) returns (r: Option<T>)
      modifies this
      ensures Lookup(old(store), key, now).Some? ==>
        r == Lookup(old(store), key, now) && store == old(store)[key := old(store)[key].Refresh(now)]
      ensures Lookup(old(store), key, now).None? ==>
        r == compute() && key in store && store[key] == CacheItem(r, now, lifetime.GetOr(defaultLifetime))
        && exists cleaned :: WrittenThrough(AfterGet(old(store), key, now), cleaned, store, key, CacheItem(r, now, lifetime.GetOr(defaultLifetime)), now, maxSize)
      ensures maxSize == old(maxSize) && defaultLifetime == old(defaultLifetime)
      ensures key in old(store) && !old(store)[key].IsExpired(now) ==>
        hitCount == old(hitCount) + 1 && missCount == old(missCount)
      ensures key !in old(store) || old(store)[key].IsExpired(now) ==>
        hitCount == old(hitCount) && missCount == old(missCount) + 1
    {
      var cached := Get(key, now);
      if cached.Some? {
        return cached;
      }
      r := compute();
      Set(key, r, lifetime, now);
    }
  }
}
