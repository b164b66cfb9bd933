/**
 * The in-memory cache with a time-to-live. The clock is an explicit
 * argument: `now` is the value `time.time()` would return at that call.
 */
module Cache {
  import opened Common
  import opened Config

  /** An entry stored at `timestamp` is expired at `now` when it is strictly older than `ttl`. */
  predicate IsExpired(ttl: int, timestamp: real, now: real) {
    now - timestamp > ttl as real
  }

  /** The boundary is inclusive: an entry exactly `ttl` seconds old is still live. */
  lemma ExpiryBoundary(ttl: int, timestamp: real, now: real)
    ensures now - timestamp == ttl as real ==> !IsExpired(ttl, timestamp, now)
    ensures now - timestamp > ttl as real ==> IsExpired(ttl, timestamp, now)
    ensures now == timestamp && ttl >= 0 ==> !IsExpired(ttl, timestamp, now)
  {
  }

  /** The effective lifetime: a missing or zero `ttl` falls back to the configured one. */
  function EffectiveTtl(ttl: Option<int>): (r: int)
    ensures ttl.None? || ttl.value == 0 ==> r == 3600
    ensures ttl.Some? && ttl.value != 0 ==> r == ttl.value
  {
    if ttl.None? || ttl.value == 0 then GEOCODING_CACHE_TTL else ttl.value
  }

  class SimpleCache<V> {
    var ttl: int
    /** Each key maps to its value and the time it was stored. */
    var entries: map<string, (V, real)>

    constructor (ttl: Option<int>)
      ensures this.ttl == EffectiveTtl(ttl) && entries == map[]
    {
      this.ttl := EffectiveTtl(ttl);
      entries := map[];
    }

    /**
     * A missing key gives None and changes nothing; an expired key is
     * deleted and gives None; a live key gives its value and changes nothing.
     */
    method Get(key: string, now: real) returns (r: Option<V>)
      modifies this
      ensures ttl == old(ttl)
      ensures key !in old(entries) ==> r.None? && entries == old(entries)
      ensures key in old(entries) && IsExpired(ttl, old(entries)[key].1, now) ==>
        r.None? && entries == old(entries) - {key}
      ensures key in old(entries) && !IsExpired(ttl, old(entries)[key].1, now) ==>
        r == Some(old(entries)[key].0) && entries == old(entries)
    {
      if key !in entries {
        return None;
      }
      var (value, timestamp) := entries[key];
      if now - timestamp > ttl as real {
        entries := entries - {key};
        return None;
      }
      return Some(value);
    }

    /** Stores `value` at time `now`, replacing any entry under `key`; other keys stay as they were. */
    method Set(key: string, value: V, now: real)
      modifies this
      ensures ttl == old(ttl)
      ensures entries == old(entries)[key := (value, now)]
    {
      entries := entries[key := (value, now)];
    }

    method Clear()
      modifies this
      ensures ttl == old(ttl) && entries == map[]
    {
      entries := map[];
    }

    /** The number of stored entries, expired ones not yet read included. */
    method Size() returns (n: nat)
      ensures n == |entries|
    {
      n := |entries|;
    }
  }

  /** Storing and reading back at most `ttl` seconds later returns the stored value. */
  method SetThenGet<V>(cache: SimpleCache<V>, key: string, value: V, storedAt: real, readAt: real) returns (r: Option<V>)
    requires storedAt <= readAt <= storedAt + cache.ttl as real
    modifies cache
    ensures r == Some(value)
    ensures cache.entries == old(cache.entries)[key := (value, storedAt)]
  {
    cache.Set(key, value, storedAt);
    r := cache.Get(key, readAt);
  }

  /** After a clear the size is 0. */
  method ClearThenSize<V>(cache: SimpleCache<V>) returns (n: nat)
    modifies cache
    ensures n == 0
  {
    cache.Clear();
    n := cache.Size();
  }
}
