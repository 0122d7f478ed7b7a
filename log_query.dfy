/**
 * The query side of the `.jsonl` logs, apps/server/metrics/datapoints.py:
 * parse each line of a day's file, keep the numeric points of one URI,
 * and sort them by time. A file is given as the sequence of its lines;
 * `files` maps each existing path to its lines.
 */
module LogQuery {
  import opened Wrappers
  import opened Strings
  import opened PyValue
  import opened Runtime
  import opened LogPath
  import opened Sorting
  import Message

  /** `(entry["ts_datetime"], float(entry["value"]))`. */
  datatype Point = Point(ts: Value, value: real)

  /**
   * `_parse_log_entry`: the decoded line, with `ts_datetime` attached when
   * it has a string `ts`; `None` for invalid JSON, an unparseable `ts`, or
   * any other exception (`"ts" in 5`, `["ts"]["ts"]`).
   */
  function ParseLogEntry(line: string, p: Platform): (r: Option<Value>)
    ensures p.loads(line).DecodeError? ==> r.None?
    ensures r.Some? ==> p.loads(line).Decoded?
    ensures r.Some? ==> r.value.Object? || r.value.List? || r.value.Str?
    ensures r.Some? && !r.value.Object? ==> r.value == p.loads(line).value
    ensures r.Some? && r.value.Object? ==>
              && p.loads(line).value.Object?
              && var fields := p.loads(line).value.fields;
                 if "ts" in fields && fields["ts"].Str? then
                   var dt := p.fromIsoFormat(Message.IsoText(fields["ts"].s));
                   dt.Parsed? && r.value.fields == fields["ts_datetime" := Time(dt.dt.AsUtc())]
                 else r.value.fields == fields
  {
    match p.loads(line)
    case DecodeError(_) => None
    case Decoded(v) =>
      match Contains("ts", v)
      case None => None
      case Some(hasTs) =>
        if !hasTs then Some(v)
        else if !v.Object? then None
        else if !v.fields["ts"].Str? then Some(v)
        else
          match p.fromIsoFormat(Message.IsoText(v.fields["ts"].s))
          case Invalid(_) => None
          case Parsed(dt) => Some(Object(v.fields["ts_datetime" := Time(dt.AsUtc())]))
  }

  /** An unparseable `ts` makes the line count as absent, not as an entry without a time. */
  lemma BadTimestampSkipped(line: string, p: Platform)
    requires p.loads(line).Decoded? && p.loads(line).value.Object?
    requires "ts" in p.loads(line).value.fields && p.loads(line).value.fields["ts"].Str?
    requires p.fromIsoFormat(Message.IsoText(p.loads(line).value.fields["ts"].s)).Invalid?
    ensures ParseLogEntry(line, p).None?
  {
  }

  /** `get_all_entries_from_log`: the truthy parses of the lines, in file order. */
  function Entries(lines: seq<string>, p: Platform): (r: seq<Value>)
    ensures forall i :: 0 <= i < |r| ==> Truthy(r[i]) && (r[i].Object? || r[i].List? || r[i].Str?)
    ensures |r| <= |lines|
    decreases |lines|
  {
    if lines == [] then []
    else
      var parsed := ParseLogEntry(lines[|lines| - 1], p);
      Entries(lines[..|lines| - 1], p) + (if parsed.Some? && Truthy(parsed.value) then [parsed.value] else [])
  }

  method ReadEntries(lines: seq<string>, p: Platform) returns (entries: seq<Value>)
    ensures entries == Entries(lines, p)
  {
    entries := [];
    var i := 0;
    while i < |lines|
      invariant 0 <= i <= |lines| && entries == Entries(lines[..i], p)
    {
      var parsed := ParseLogEntry(lines[i], p);
      if parsed.Some? && Truthy(parsed.value) {
        entries := entries + [parsed.value];
      }
      assert lines[..i + 1][..i] == lines[..i];
      i := i + 1;
    }
    assert lines[..i] == lines;
  }

  /** The filter of `get`: the entry's `uri` is the query, it has a time, and its value is a number. */
  predicate Selected(e: map<string, Value>, uri: string) {
    PyValue.Get(e, "uri") == Str(uri) && "ts_datetime" in e && IsNumber(PyValue.Get(e, "value"))
  }

  function PointOf(e: map<string, Value>): Point
    requires "ts_datetime" in e && IsNumber(PyValue.Get(e, "value"))
  {
    Point(e["ts_datetime"], ToFloat(PyValue.Get(e, "value")))
  }

  /** `pt` is the point of a selected entry among `entries`. */
  predicate SourcedAt(pt: Point, entries: seq<Value>, uri: string) {
    exists i :: 0 <= i < |entries| && entries[i].Object? && Selected(entries[i].fields, uri)
      && pt == PointOf(entries[i].fields)
  }

  /** Each of `points` comes from a selected entry among `entries`. */
  predicate Sourced(points: seq<Point>, entries: seq<Value>, uri: string) {
    forall j :: 0 <= j < |points| ==> SourcedAt(points[j], entries, uri)
  }

  /** A point from a prefix of `entries` comes from `entries`. */
  lemma SourcedAtPrefix(pt: Point, entries: seq<Value>, n: nat, uri: string)
    requires n <= |entries| && SourcedAt(pt, entries[..n], uri)
    ensures SourcedAt(pt, entries, uri)
  {
    var i :| 0 <= i < n && entries[..n][i].Object? && Selected(entries[..n][i].fields, uri)
             && pt == PointOf(entries[..n][i].fields);
    assert entries[i] == entries[..n][i];
  }

  /** Points from the front of `entries`, and perhaps one from its last entry, come from `entries`. */
  lemma SourcedExtend(entries: seq<Value>, points: seq<Point>, uri: string)
    requires entries != [] && entries[|entries| - 1].Object?
    requires Sourced(points, entries[..|entries| - 1], uri)
    ensures var last := entries[|entries| - 1].fields;
      Sourced(points + (if Selected(last, uri) then [PointOf(last)] else []), entries, uri)
  {
    var n := |entries| - 1;
    var last := entries[n].fields;
    var r := points + (if Selected(last, uri) then [PointOf(last)] else []);
    forall j | 0 <= j < |r|
      ensures SourcedAt(r[j], entries, uri)
    {
      if j < |points| {
        assert r[j] == points[j];
        SourcedAtPrefix(points[j], entries, n, uri);
      } else {
        assert entries[n].Object? && Selected(entries[n].fields, uri) && r[j] == PointOf(entries[n].fields);
      }
    }
  }

  /**
   * The filtering loop of `get`: the points of the selected entries, in
   * file order; it raises (`AttributeError` on `.get`) when an entry is a
   * list or a string.
   */
  function Matching(entries: seq<Value>, uri: string): (r: Outcome<seq<Point>>)
    ensures r.Raised? <==> exists i :: 0 <= i < |entries| && !entries[i].Object?
    ensures r.Returned? ==> Sourced(r.value, entries, uri)
    decreases |entries|
  {
    if entries == [] then Returned([])
    else
      var front := entries[..|entries| - 1];
      var last := entries[|entries| - 1];
      match Matching(front, uri)
      case Raised =>
        var i :| 0 <= i < |front| && !front[i].Object?;
        assert entries[i] == front[i];
        Raised
      case Returned(points) =>
        if !last.Object? then Raised
        else
          assert forall i :: 0 <= i < |front| ==> entries[i] == front[i];
          SourcedExtend(entries, points, uri);
          Returned(points + (if Selected(last.fields, uri) then [PointOf(last.fields)] else []))
  }

  /** One more entry through the filter. */
  lemma MatchingStep(entries: seq<Value>, i: nat, uri: string)
    requires i < |entries|
    ensures Matching(entries[..i + 1], uri) ==
      match Matching(entries[..i], uri)
      case Raised => Raised
      case Returned(points) =>
        if !entries[i].Object? then Raised
        else Returned(points + (if Selected(entries[i].fields, uri) then [PointOf(entries[i].fields)] else []))
  {
    assert entries[..i + 1][..i] == entries[..i];
  }

  /** An entry that is not an object makes the whole filter raise. */
  lemma MatchingRaises(entries: seq<Value>, i: nat, uri: string)
    requires i < |entries| && !entries[i].Object?
    ensures Matching(entries, uri).Raised?
  {
  }

  /** The sort key: the UTC instant of an aware `datetime`. */
  function Key(pt: Point): real {
    if pt.ts.Time? && pt.ts.dt.Aware() then pt.ts.dt.Instant() as real else 0.0
  }

  /**
   * Sorting compares no keys for fewer than two points; otherwise every key
   * must be an aware `datetime`, or `sort` raises `TypeError`.
   */
  predicate Comparable(points: seq<Point>) {
    |points| < 2 || forall i :: 0 <= i < |points| ==> points[i].ts.Time? && points[i].ts.dt.Aware()
  }

  /** `date_str` when it is given and `strptime` accepts it, otherwise today's UTC date. */
  function TargetDate(dateStr: Option<string>, todayUtc: Date, p: Platform): Date {
    if dateStr.Some? && dateStr.value != "" && p.strptimeDate(dateStr.value).Some? then
      p.strptimeDate(dateStr.value).value
    else todayUtc
  }

  /** What `get` returns. */
  function Query(uri: string, dateStr: Option<string>, todayUtc: Date, dir: string,
                 files: map<string, seq<string>>, p: Platform): Outcome<seq<Point>>
  {
    var path := LogFile(dir, TargetDate(dateStr, todayUtc, p));
    if path !in files then Returned([])
    else
      match Matching(Entries(files[path], p), uri)
      case Raised => Raised
      case Returned(points) => if Comparable(points) then Returned(SortBy(points, Key)) else Raised
  }

  /** `get`: read the day's entries, keep the matching points, sort them by time. */
  method Get(uri: string, dateStr: Option<string>, todayUtc: Date, dir: string,
             files: map<string, seq<string>>, p: Platform) returns (r: Outcome<seq<Point>>)
    ensures r == Query(uri, dateStr, todayUtc, dir, files, p)
  {
    var target := todayUtc;
    if dateStr.Some? && dateStr.value != "" {
      var parsed := p.strptimeDate(dateStr.value);
      if parsed.Some? {
        target := parsed.value;
      }
    }
    var path := LogFile(dir, target);
    if path !in files {
      return Returned([]);
    }
    var entries := ReadEntries(files[path], p);
    var values: seq<Point> := [];
    var i := 0;
    while i < |entries|
      invariant 0 <= i <= |entries| && Matching(entries[..i], uri) == Returned(values)
    {
      MatchingStep(entries, i, uri);
      if !entries[i].Object? {
        MatchingRaises(entries, i, uri);
        return Raised;
      }
      var e := entries[i].fields;
      if PyValue.Get(e, "uri") == Str(uri) && "ts_datetime" in e && IsNumber(PyValue.Get(e, "value")) {
        values := values + [Point(e["ts_datetime"], ToFloat(PyValue.Get(e, "value")))];
      } else {
        assert values + [] == values;
      }
      i := i + 1;
    }
    assert entries[..i] == entries;
    if !Comparable(values) {
      return Raised;
    }
    r := Returned(SortBy(values, Key));
  }

  /** `get` returns the matching points, all of them and nothing else, oldest first, ties in file order. */
  lemma QueryIsSortedSelection(uri: string, dateStr: Option<string>, todayUtc: Date, dir: string,
                               files: map<string, seq<string>>, p: Platform, k: real)
    requires Query(uri, dateStr, todayUtc, dir, files, p).Returned?
    ensures var points := Query(uri, dateStr, todayUtc, dir, files, p).value;
      var path := LogFile(dir, TargetDate(dateStr, todayUtc, p));
      && SortedBy(points, Key)
      && (path !in files ==> points == [])
      && (path in files ==>
            var selected := Matching(Entries(files[path], p), uri).value;
            multiset(points) == multiset(selected) && WithKey(points, Key, k) == WithKey(selected, Key, k))
  {
    var path := LogFile(dir, TargetDate(dateStr, todayUtc, p));
    if path in files {
      var selected := Matching(Entries(files[path], p), uri).value;
      SortBySorted(selected, Key);
      SortByPermutes(selected, Key);
      SortByStable(selected, Key, k);
    }
  }

  /** A date `strptime` rejects reads today's file, exactly as no date at all. */
  lemma InvalidDateMeansToday(uri: string, dateStr: string, todayUtc: Date, dir: string,
                              files: map<string, seq<string>>, p: Platform)
    requires p.strptimeDate(dateStr).None?
    ensures Query(uri, Some(dateStr), todayUtc, dir, files, p) == Query(uri, None, todayUtc, dir, files, p)
  {
  }

  /** The last point of a sorted result. */
  function Latest(r: Outcome<seq<Point>>): Outcome<Option<Point>> {
    match r
    case Raised => Raised
    case Returned(points) => Returned(if points == [] then None else Some(points[|points| - 1]))
  }

  /** `get_latest`: the last point of `get`, `None` when there is none. */
  method GetLatest(uri: string, dateStr: Option<string>, todayUtc: Date, dir: string,
                   files: map<string, seq<string>>, p: Platform) returns (r: Outcome<Option<Point>>)
    ensures r == Latest(Query(uri, dateStr, todayUtc, dir, files, p))
  {
    var all := Get(uri, dateStr, todayUtc, dir, files, p);
    if all.Raised? {
      return Raised;
    }
    if all.value == [] {
      return Returned(None);
    }
    r := Returned(Some(all.value[|all.value| - 1]));
  }

  /** The latest point is one of the results and none of them is later. */
  lemma LatestIsMaximal(uri: string, dateStr: Option<string>, todayUtc: Date, dir: string,
                        files: map<string, seq<string>>, p: Platform)
    requires Latest(Query(uri, dateStr, todayUtc, dir, files, p)).Returned?
    ensures var points := Query(uri, dateStr, todayUtc, dir, files, p).value;
      var latest := Latest(Query(uri, dateStr, todayUtc, dir, files, p)).value;
      && (latest.None? <==> points == [])
      && (latest.Some? ==> latest.value in points && forall q :: q in points ==> Key(q) <= Key(latest.value))
  {
    var points := Query(uri, dateStr, todayUtc, dir, files, p).value;
    QueryIsSortedSelection(uri, dateStr, todayUtc, dir, files, p, 0.0);
    if points != [] {
      forall q | q in points
        ensures Key(q) <= Key(points[|points| - 1])
      {
        var i :| 0 <= i < |points| && points[i] == q;
        if i < |points| - 1 {
          assert SortedBy(points, Key);
        }
      }
    }
  }
}
