/**
 * The per-line body of `handle_client` in server/app/main.py: token-only
 * authentication, registration of a new URI in the tree, and the log
 * entry. Only `MessageParseError` is answered; any other exception leaves
 * the loop and the connection is closed.
 */
module ServerApp {
  import opened Wrappers
  import opened Strings
  import opened PyValue
  import opened Runtime
  import opened Session
  import opened LogWriter
  import opened UriTree
  import opened Handler
  import Message

  /** What a line can change: the token registry's globals, the log queue and the paths the URI tree holds. */
  datatype AppState = AppState(reg: RegState, queue: seq<Value>, paths: set<seq<string>>)

  /** What the handler needs of a parsed message: the six fields and a timestamp that parses again. */
  predicate HasTime(msg: map<string, Value>, p: Platform) {
    Message.WellTyped(msg) && p.fromIsoFormat(Message.IsoText(msg["ts"].s)).Parsed?
  }

  /** The state after an authenticated message: the URI registered, `{"ts": ts, ...}` queued with `ts` a `datetime`. */
  ghost function Accepted(st: AppState, reg: RegState, msg: map<string, Value>, userId: Value, p: Platform): AppState
    requires HasTime(msg, p)
  {
    var ts := p.fromIsoFormat(Message.IsoText(msg["ts"].s)).dt;
    AppState(reg, st.queue + [LogEntry(Time(ts), msg["uri"], msg["value"], userId)], Register(st.paths, msg["uri"].s))
  }

  /** The token check and the stores, after a successful parse. */
  ghost function Checked(st: AppState, msg: map<string, Value>, file: RegistryFile, now: int, p: Platform)
    : (r: (AppState, Effect))
    requires HasTime(msg, p)
    ensures r.1 != Silent
    ensures r.1 != Ack ==> r.0.queue == st.queue && r.0.paths == st.paths
    ensures r.1 == Ack ==> |r.0.queue| == |st.queue| + 1 && r.0.queue[..|st.queue|] == st.queue
                           && Segments(msg["uri"].s) in r.0.paths
    ensures st.paths <= r.0.paths
    ensures r.0.reg == AfterLoad(st.reg, file, p)
  {
    var reg := AfterLoad(st.reg, file, p);
    match CheckToken(View(reg.db), reg.loadedOk, msg["token"].s, now, p)
    case Raised => (st.(reg := reg), Closed)
    case Returned(userId) =>
      if userId.None? then (st.(reg := reg), Error(InvalidToken))
      else (Accepted(st, reg, msg, userId.value, p), Ack)
  }

  /** One line through the loop: parsed, its token checked, its URI registered and its entry queued. */
  ghost function Step(st: AppState, line: string, file: RegistryFile, now: int, p: Platform): (r: (AppState, Effect))
    ensures r.1 != Silent
    ensures r.1 != Ack ==> r.0.queue == st.queue && r.0.paths == st.paths
    ensures r.1 == Ack ==> |r.0.queue| == |st.queue| + 1 && r.0.queue[..|st.queue|] == st.queue
    ensures st.paths <= r.0.paths
    ensures r.0.reg in {st.reg, AfterLoad(st.reg, file, p)}
  {
    match Message.ParseMessage(Raw(line), p)
    case Fail(e) => (st, Error(e.Text()))
    case Uncaught => (st, Closed)
    case Ok(msg) => Checked(st, msg, file, now, p)
  }

  // ---------------------------------------------------------------------
  // Properties of one line

  /** A parse error is answered and changes nothing. */
  lemma ParseErrorReported(st: AppState, line: string, file: RegistryFile, now: int, p: Platform)
    requires Message.ParseMessage(Raw(line), p).Fail?
    ensures Step(st, line, file, now, p) == (st, Error(Message.ParseMessage(Raw(line), p).error.Text()))
  {
  }

  /** A token the registry refuses is answered; the URI is not registered and nothing is queued. */
  lemma InvalidTokenSkipsLine(st: AppState, line: string, file: RegistryFile, now: int, p: Platform)
    requires Message.ParseMessage(Raw(line), p).Ok?
    requires var msg := Message.ParseMessage(Raw(line), p).msg;
      var reg := AfterLoad(st.reg, file, p);
      CheckToken(View(reg.db), reg.loadedOk, msg["token"].s, now, p) == Returned(None)
    ensures Step(st, line, file, now, p) == (st.(reg := AfterLoad(st.reg, file, p)), Error(InvalidToken))
  {
  }

  /**
   * No signature is looked at: a line whose token the registry accepts is
   * acknowledged whatever its `signature` field holds, with its URI now in
   * the tree and its entry at the tail of the queue.
   */
  lemma ValidTokenAcks(st: AppState, line: string, file: RegistryFile, now: int, p: Platform, userId: Value)
    requires Message.ParseMessage(Raw(line), p).Ok?
    requires var msg := Message.ParseMessage(Raw(line), p).msg;
      var reg := AfterLoad(st.reg, file, p);
      CheckToken(View(reg.db), reg.loadedOk, msg["token"].s, now, p) == Returned(Some(userId))
    ensures var msg := Message.ParseMessage(Raw(line), p).msg;
      var r := Step(st, line, file, now, p);
      && r.1 == Ack
      && Segments(msg["uri"].s) in r.0.paths
      && r.0.queue == st.queue + [LogEntry(Time(p.fromIsoFormat(Message.IsoText(msg["ts"].s)).dt), msg["uri"], msg["value"], userId)]
  {
  }

  /** The step of the loop for one connection: the registry file and the clock fixed. */
  ghost function Stepper(file: RegistryFile, clock: nat -> int, p: Platform): (AppState, string, nat) -> (AppState, Effect) {
    (s: AppState, l: string, i: nat) => Step(s, l, file, clock(i), p)
  }

  lemma StepperApplies(file: RegistryFile, clock: nat -> int, p: Platform, st: AppState, line: string, i: nat)
    ensures Stepper(file, clock, p)(st, line, i) == Step(st, line, file, clock(i), p)
  {
  }

  // ---------------------------------------------------------------------
  // The server

  /** The module globals `log_writer` and `uri_tree`, and the session module's registry. */
  class Server {
    const registry: TokenRegistry
    const writer: LogWriter
    const tree: URITree

    ghost predicate Valid()
      reads this, writer, tree, tree.Repr
    {
      writer.Valid() && tree.Valid()
    }

    ghost function Current(): AppState
      reads this, registry, writer, tree
    {
      AppState(RegState(registry.db, registry.loadedOk), writer.queue, tree.paths)
    }

    constructor(logDir: string, files: map<string, string>)
      ensures Valid() && fresh(registry) && fresh(writer) && fresh(tree) && fresh(tree.Repr)
      ensures Current() == AppState(RegState(None, false), [], {[]})
      ensures writer.files == files
    {
      registry := new TokenRegistry();
      writer := new LogWriter(logDir, files);
      tree := new URITree();
    }

    /** One received line: `file` is the registry file, `now` the clock when the token is checked. */
    method HandleLine(line: string, file: RegistryFile, now: int, p: Platform) returns (e: Effect)
      requires Valid()
      modifies registry, writer, tree, tree.Repr
      ensures Valid() && fresh(tree.Repr - old(tree.Repr))
      ensures (Current(), e) == Step(old(Current()), line, file, now, p)
      ensures writer.files == old(writer.files)
    {
      var raw := Strip(line, Whitespace);
      var parsed := Message.ParseMessage(raw, p);
      if parsed.Fail? {
        return Error(parsed.error.Text());
      } else if parsed.Uncaught? {
        return Closed;
      }
      e := HandleMessage(parsed.msg, file, now, p);
    }

    /** The token check and the stores, once the line has parsed. */
    method HandleMessage(msg: map<string, Value>, file: RegistryFile, now: int, p: Platform) returns (e: Effect)
      requires Valid() && HasTime(msg, p)
      modifies registry, writer, tree, tree.Repr
      ensures Valid() && fresh(tree.Repr - old(tree.Repr))
      ensures (Current(), e) == Checked(old(Current()), msg, file, now, p)
      ensures writer.files == old(writer.files)
    {
      ghost var st := Current();
      var userId := registry.VerifyToken(PyValue.Get(msg, "token").s, file, now, p);
      ghost var checked := st.(reg := AfterLoad(st.reg, file, p));
      assert Current() == checked;
      if userId.Raised? {
        return Closed;
      } else if userId.value.None? {
        return Error(InvalidToken);
      }
      Store(msg, userId.value.value, p);
      return Ack;
    }

    /** `uri_tree.insert_uri(uri)` when the URI is new, then `log_writer.append({...})`. */
    method Store(msg: map<string, Value>, userId: Value, p: Platform)
      requires Valid() && HasTime(msg, p)
      modifies writer, tree, tree.Repr
      ensures Valid() && fresh(tree.Repr - old(tree.Repr))
      ensures Current() == Accepted(old(Current()), old(Current()).reg, msg, userId, p)
      ensures writer.files == old(writer.files)
    {
      ghost var before := Current();
      var ts := p.fromIsoFormat(Message.IsoText(msg["ts"].s)).dt;
      RegisterUri(tree, msg["uri"].s);
      ghost var paths := tree.paths;
      writer.Append(LogEntry(Time(ts), msg["uri"], msg["value"], userId));
      assert tree.paths == paths == Register(before.paths, msg["uri"].s);
    }

    /**
     * The connection: every line received before the client closes, line
     * `i` checked against the clock reading `clock(i)`, until an exception
     * ends the loop.
     */
    method Serve(lines: seq<string>, file: RegistryFile, clock: nat -> int, p: Platform) returns (effects: seq<Effect>)
      requires Valid()
      modifies registry, writer, tree, tree.Repr
      ensures Valid() && fresh(tree.Repr - old(tree.Repr))
      ensures (Current(), effects) == Run(old(Current()), lines, Stepper(file, clock, p))
    {
      ghost var start := Current();
      effects := [];
      var i := 0;
      while i < |lines| && !Stopped(effects)
        invariant Valid() && fresh(tree.Repr - old(tree.Repr)) && 0 <= i <= |lines|
        invariant (Current(), effects) == Runs(start, lines, Stepper(file, clock, p))[i]
      {
        var e := Next(start, lines, i, effects, file, clock, p);
        effects := effects + [e];
        i := i + 1;
      }
      RunEnds(start, lines, i, Stepper(file, clock, p), Current(), effects);
    }

    /** Line `i` of the connection, read while the loop still runs. */
    method Next(ghost start: AppState, lines: seq<string>, i: nat, ghost effects: seq<Effect>,
                file: RegistryFile, clock: nat -> int, p: Platform) returns (e: Effect)
      requires Valid() && i < |lines| && !Stopped(effects)
      requires (Current(), effects) == Runs(start, lines, Stepper(file, clock, p))[i]
      modifies registry, writer, tree, tree.Repr
      ensures Valid() && fresh(tree.Repr - old(tree.Repr))
      ensures (Current(), effects + [e]) == Runs(start, lines, Stepper(file, clock, p))[i + 1]
    {
      ghost var before := Current();
      e := HandleLine(lines[i], file, clock(i), p);
      StepperApplies(file, clock, p, before, lines[i], i);
      RunAdvance(start, lines, i, Stepper(file, clock, p), before, effects, Current(), e);
    }
  }
}
