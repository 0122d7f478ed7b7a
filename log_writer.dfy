/**
 * `LogWriter` of server/utils/log_writer.py: entries are put on a FIFO
 * queue by `append`; a single background task takes them off one at a
 * time and appends each, as one JSON line, to the file of the current
 * local date.
 */
module LogWriter {
  import opened Wrappers
  import opened Strings
  import opened PyValue
  import opened Runtime
  import opened Json
  import opened LogPath

  /** The style of the log lines: default separators, `ensure_ascii=False`. */
  const LineStyle := Style(false, false)

  /** `json.dumps(entry, ensure_ascii=False) + "\n"`; `None` where `json.dumps` raises. */
  function Line(entry: Value, p: Platform): (r: Option<string>)
    ensures r.Some? <==> IsJson(entry)
    ensures r.Some? ==> EndsWith(r.value, "\n")
  {
    DumpsDefinedIffJson(entry, LineStyle, p);
    match Dumps(entry, LineStyle, p)
    case None => None
    case Some(text) => Some(text + "\n")
  }

  /** The contents of `path`, the empty string for a file not yet created. */
  function Contents(files: map<string, string>, path: string): string {
    if path in files then files[path] else ""
  }

  /** The text written for one entry: its line, or nothing when `json.dumps` raises. */
  function Head(entry: Value, p: Platform): string {
    match Line(entry, p) case None => "" case Some(line) => line
  }

  /**
   * One entry written to `path`: `open(path, "a")` creates the file, then
   * the line is appended; when `json.dumps` raises, the file has been
   * opened but nothing is written.
   */
  function WriteEntry(files: map<string, string>, path: string, entry: Value, p: Platform): (r: map<string, string>)
    ensures path in r && r.Keys == files.Keys + {path}
    ensures forall q :: q in files && q != path ==> r[q] == files[q]
  {
    files[path := Contents(files, path) + Head(entry, p)]
  }

  /** The entries written one after the other to `path`. */
  function WriteAll(files: map<string, string>, path: string, entries: seq<Value>, p: Platform): map<string, string>
    decreases |entries|
  {
    if entries == [] then files else WriteAll(WriteEntry(files, path, entries[0], p), path, entries[1..], p)
  }

  /** The lines of the entries that can be serialised, in order. */
  function Rendered(entries: seq<Value>, p: Platform): string
    decreases |entries|
  {
    if entries == [] then ""
    else Head(entries[0], p) + Rendered(entries[1..], p)
  }

  /**
   * FIFO: writing a batch appends the lines of its entries to the file in
   * queue order; entries that cannot be serialised are dropped.
   */
  lemma {:induction false} WriteAllAppends(files: map<string, string>, path: string, entries: seq<Value>, p: Platform)
    ensures Contents(WriteAll(files, path, entries, p), path) == Contents(files, path) + Rendered(entries, p)
    decreases |entries|
  {
    if entries == [] {
      assert Contents(files, path) + "" == Contents(files, path);
    } else {
      var once := WriteEntry(files, path, entries[0], p);
      var base, head, rest := Contents(files, path), Head(entries[0], p), Rendered(entries[1..], p);
      WriteAllAppends(once, path, entries[1..], p);
      assert Contents(once, path) == base + head;
      assert Rendered(entries, p) == head + rest;
      Associative(base, head, rest);
    }
  }

  /** Writing a batch to `path` creates at most that file and leaves every other one as it was. */
  lemma {:induction false} WriteAllFrame(files: map<string, string>, path: string, entries: seq<Value>, p: Platform)
    ensures var r := WriteAll(files, path, entries, p);
      && (entries != [] ==> path in r)
      && r.Keys <= files.Keys + {path}
      && (forall q :: q in files && q != path ==> q in r && r[q] == files[q])
    decreases |entries|
  {
    if entries != [] {
      WriteAllFrame(WriteEntry(files, path, entries[0], p), path, entries[1..], p);
    }
  }

  /** An entry holding a `datetime` adds nothing to its file: it is lost, not retried. */
  lemma DroppedEntryWritesNothing(files: map<string, string>, path: string, entry: Value, p: Platform)
    requires !IsJson(entry)
    ensures Contents(WriteEntry(files, path, entry, p), path) == Contents(files, path)
  {
  }

  class LogWriter {
    const logDir: string
    /** The entries waiting in the `asyncio.Queue`, oldest first. */
    var queue: seq<Value>
    /** The queue's count of entries not yet marked done by `task_done`. */
    var unfinished: nat
    /** Whether `self.task` has been set. */
    var started: bool
    /** How many write-loop tasks have been created. */
    ghost var consumers: nat
    /** The log files on disk, by path. */
    var files: map<string, string>

    ghost predicate Valid()
      reads this
    {
      && unfinished == |queue|
      && consumers == (if started then 1 else 0)
    }

    constructor(logDir: string, files: map<string, string>)
      ensures Valid()
      ensures this.logDir == logDir && this.files == files
      ensures queue == [] && unfinished == 0 && !started
    {
      this.logDir := logDir;
      this.files := files;
      queue := [];
      unfinished := 0;
      started := false;
      consumers := 0;
    }

    /** `get_log_path`: the file for the local date `today`. */
    function GetLogPath(today: Date): (path: string)
      requires ValidDate(today)
      ensures path == LogFile(logDir, today)
      ensures forall other :: ValidDate(other) && other != today ==> path != LogFile(logDir, other)
    {
      forall other | ValidDate(other) && other != today
        ensures LogFile(logDir, today) != LogFile(logDir, other)
      {
        LogFileInjective(logDir, today, other);
      }
      LogFile(logDir, today)
    }

    /** `append`: the entry joins the tail of the queue; nothing else changes. */
    method Append(entry: Value)
      requires Valid()
      modifies this
      ensures Valid()
      ensures queue == old(queue) + [entry] && unfinished == old(unfinished) + 1
      ensures started == old(started) && consumers == old(consumers) && files == old(files)
    {
      queue := queue + [entry];
      unfinished := unfinished + 1;
    }

    /**
     * One pass of `_write_loop`: take the oldest entry and append its line
     * to today's file. `openOk` says whether `open` succeeded. Whatever
     * happens, the entry is gone and `task_done` is called.
     */
    method WriteOne(today: Date, openOk: bool, p: Platform) returns (written: bool)
      requires Valid() && queue != [] && ValidDate(today)
      modifies this
      ensures Valid()
      ensures queue == old(queue)[1..] && unfinished == old(unfinished) - 1
      ensures files == if openOk then WriteEntry(old(files), LogFile(logDir, today), old(queue)[0], p) else old(files)
      ensures written <==> openOk && IsJson(old(queue)[0])
      ensures started == old(started) && consumers == old(consumers)
    {
      var entry := queue[0];
      queue := queue[1..];
      written := false;
      if openOk {
        var path := GetLogPath(today);
        var line := Line(entry, p);
        var before := if path in files then files[path] else "";
        ghost var expected := WriteEntry(files, path, entry, p);
        if line.Some? {
          files := files[path := before + line.value];
          written := true;
        } else {
          assert before + Head(entry, p) == before;
          files := files[path := before];
        }
        assert files == expected;
      }
      unfinished := unfinished - 1;
    }

    /**
     * The write loop run until the queue is empty, every `open` succeeding
     * and the date not changing: `queue.join()` would now return.
     */
    method Drain(today: Date, p: Platform)
      requires Valid() && ValidDate(today)
      modifies this
      ensures Valid()
      ensures queue == [] && unfinished == 0
      ensures files == WriteAll(old(files), LogFile(logDir, today), old(queue), p)
      ensures started == old(started) && consumers == old(consumers)
    {
      ghost var path := LogFile(logDir, today);
      ghost var i := 0;
      while queue != []
        invariant Valid() && 0 <= i <= |old(queue)| && queue == old(queue)[i..]
        invariant WriteAll(old(files), path, old(queue), p) == WriteAll(files, path, queue, p)
        invariant started == old(started) && consumers == old(consumers)
        decreases |queue|
      {
        ghost var rest := queue;
        var _ := WriteOne(today, true, p);
        assert queue == rest[1..];
        i := i + 1;
      }
    }

    /** `start`: the write loop is created on the first call only. */
    method Start()
      requires Valid()
      modifies this
      ensures Valid() && started && consumers == 1
      ensures old(started) ==> consumers == old(consumers)
      ensures queue == old(queue) && unfinished == old(unfinished) && files == old(files)
    {
      if !started {
        started := true;
        consumers := consumers + 1;
      }
    }
  }

  /** Every connection calls `start`; however many do, there is one consumer. */
  method StartIsIdempotent(w: LogWriter, connections: nat)
    requires w.Valid() && connections > 0
    modifies w
    ensures w.Valid() && w.consumers == 1
  {
    var n := 0;
    while n < connections
      invariant w.Valid() && (n > 0 ==> w.consumers == 1)
    {
      w.Start();
      n := n + 1;
    }
  }

  /** Appended entries come out in the order they went in. */
  method AppendThenDrain(w: LogWriter, a: Value, b: Value, today: Date, p: Platform)
    requires w.Valid() && w.queue == [] && ValidDate(today)
    requires IsJson(a) && IsJson(b)
    modifies w
    ensures Contents(w.files, LogFile(w.logDir, today))
         == Contents(old(w.files), LogFile(w.logDir, today)) + Line(a, p).value + Line(b, p).value
  {
    w.Append(a);
    w.Append(b);
    w.Drain(today, p);
    var path := LogFile(w.logDir, today);
    WriteAllAppends(old(w.files), path, [a, b], p);
    assert [a, b][1..] == [b] && [b][1..] == [];
    var la, lb := Line(a, p).value, Line(b, p).value;
    assert Head(a, p) == la && Head(b, p) == lb;
    assert Rendered([b], p) == lb + "" == lb;
    assert Rendered([a, b], p) == la + lb;
    Associative(Contents(old(w.files), path), la, lb);
  }
}
