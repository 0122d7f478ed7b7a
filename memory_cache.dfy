/**
 * `MetricCache` of server/utils/memory_cache.py: the latest value and
 * timestamp for each URI, replaced on every update and never expired.
 */
module MemoryCache {
  import opened Wrappers
  import opened PyValue

  /** The `{"timestamp": ts, "value": value}` dictionary kept per URI. */
  datatype CacheEntry = CacheEntry(timestamp: DateTime, value: Value)

  class MetricCache {
    var cache: map<string, CacheEntry>

    constructor()
      ensures cache == map[]
    {
      cache := map[];
    }

    /**
     * `update`: the URI's entry becomes exactly the new one, whatever was
     * there (last arrival wins); no other URI is touched and no URI is
     * removed.
     */
    method Update(uri: string, value: Value, ts: DateTime)
      modifies this
      ensures cache == old(cache)[uri := CacheEntry(ts, value)]
      ensures old(cache).Keys <= cache.Keys
      ensures forall u :: u in old(cache) && u != uri ==> cache[u] == old(cache)[u]
    {
      cache := cache[uri := CacheEntry(ts, value)];
    }

    /** `snapshot`: a copy of the whole map, taken without changing the cache. */
    method Snapshot() returns (copy: map<string, CacheEntry>)
      ensures copy == cache
    {
      copy := cache;
    }

    /** `get_metric`: the entry, or `None` for an unknown URI, which is not added. */
    method GetMetric(uri: string) returns (r: Option<CacheEntry>)
      ensures r.Some? <==> uri in cache
      ensures r.Some? ==> r.value == cache[uri]
    {
      if uri in cache {
        r := Some(cache[uri]);
      } else {
        r := None;
      }
    }

    /** `clear`: the only operation that removes entries. */
    method Clear()
      modifies this
      ensures cache == map[]
    {
      cache := map[];
    }
  }

  /** A snapshot is a copy: updates made after it is taken do not show in it. */
  method SnapshotIsolated(c: MetricCache, uri: string, value: Value, ts: DateTime)
    returns (before: map<string, CacheEntry>)
    modifies c
    ensures before == old(c.cache)
    ensures c.cache == old(c.cache)[uri := CacheEntry(ts, value)]
  {
    before := c.Snapshot();
    c.Update(uri, value, ts);
  }

  /** Reading an entry back right after updating it gives the update, whatever the earlier entry. */
  method LastWriteWins(c: MetricCache, uri: string, v1: Value, t1: DateTime, v2: Value, t2: DateTime)
    returns (r: Option<CacheEntry>)
    modifies c
    ensures r == Some(CacheEntry(t2, v2))
  {
    c.Update(uri, v1, t1);
    c.Update(uri, v2, t2);
    r := c.GetMetric(uri);
  }
}
