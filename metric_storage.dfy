/**
 * `MetricStorage` of core/metrics/datapoints.py: one list of
 * `(timestamp, value)` pairs per URI, kept in arrival order in a
 * `defaultdict(list)`.
 */
module MetricStorage {
  import opened Wrappers
  import opened PyValue

  datatype Point = Point(ts: DateTime, value: Value)

  /** The list stored for `uri`, empty when there is none. */
  function Points(store: map<string, seq<Point>>, uri: string): seq<Point> {
    if uri in store then store[uri] else []
  }

  class Storage {
    var store: map<string, seq<Point>>

    constructor()
      ensures store == map[]
    {
      store := map[];
    }

    /** `insert`: the pair goes at the end of the URI's list; the other URIs keep theirs. */
    method Insert(uri: string, ts: DateTime, value: Value)
      modifies this
      ensures store == old(store)[uri := Points(old(store), uri) + [Point(ts, value)]]
    {
      store := store[uri := Points(store, uri) + [Point(ts, value)]];
    }

    /** `get`: the list in insertion order, or an empty list; no key is created. */
    method Get(uri: string) returns (r: seq<Point>)
      ensures r == Points(store, uri)
    {
      r := if uri in store then store[uri] else [];
    }

    /**
     * `get_latest`: the most recently inserted pair (arrival order, not
     * timestamp order), or `None`. Indexing the `defaultdict` creates an
     * empty list for an unknown URI.
     */
    method GetLatest(uri: string) returns (r: Option<Point>)
      modifies this
      ensures store == (if uri in old(store) then old(store) else old(store)[uri := []])
      ensures r.None? <==> Points(store, uri) == []
      ensures r.Some? ==> r.value == Points(store, uri)[|Points(store, uri)| - 1]
    {
      if uri !in store {
        store := store[uri := []];
      }
      if store[uri] != [] {
        r := Some(store[uri][|store[uri]| - 1]);
      } else {
        r := None;
      }
    }
  }

  /** Right after an insert, the latest pair of that URI is the inserted one. */
  method InsertThenLatest(s: Storage, uri: string, ts: DateTime, value: Value) returns (r: Option<Point>)
    modifies s
    ensures r == Some(Point(ts, value))
  {
    s.Insert(uri, ts, value);
    r := s.GetLatest(uri);
  }

  /** Asking an unknown URI for its latest pair adds that URI with an empty list. */
  method LatestOfUnknownCreatesKey(s: Storage, uri: string) returns (r: Option<Point>)
    modifies s
    requires uri !in s.store
    ensures r == None
    ensures uri in s.store && s.store[uri] == []
  {
    r := s.GetLatest(uri);
  }
}
