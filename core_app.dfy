/**
 * The per-line body of `handle_client` in core/app/main.py: no
 * authentication; a line the older parser accepts has its URI registered
 * in the tree and its point appended to the metric storage. Only
 * `MessageParseError` is answered; any other exception leaves the loop and
 * the connection is closed.
 */
module CoreApp {
  import opened Wrappers
  import opened Strings
  import opened PyValue
  import opened Runtime
  import opened UriTree
  import opened MetricStorage
  import opened Handler
  import LegacyMessage
  import Message

  /** What a line can change: the paths the URI tree holds and the points stored per URI. */
  datatype CoreState = CoreState(paths: set<seq<string>>, store: map<string, seq<Point>>)

  /** The state after an accepted message: the URI registered and `(ts, value)` appended to its points. */
  ghost function Accepted(st: CoreState, msg: map<string, Value>, p: Platform): CoreState
    requires LegacyMessage.Acceptable(msg, p) && msg["uri"].Str?
  {
    var uri := msg["uri"].s;
    var ts := p.fromIsoFormat(Message.IsoText(msg["ts"].s)).dt;
    CoreState(Register(st.paths, uri), st.store[uri := Points(st.store, uri) + [Point(ts, msg["value"])]])
  }

  /** One line through the loop. */
  ghost function Step(st: CoreState, line: string, p: Platform): (r: (CoreState, Effect))
    ensures r.1 != Silent
    ensures r.1 != Ack ==> r.0 == st
    ensures r.1 == Ack ==> st.paths <= r.0.paths && st.store.Keys <= r.0.store.Keys
  {
    match LegacyMessage.ParseMessage(Raw(line), p)
    case Fail(text) => (st, Error(text))
    case Uncaught => (st, Closed)
    case Ok(msg) =>
      if !msg["uri"].Str? then (st, Closed)
      else (Accepted(st, msg, p), Ack)
  }

  // ---------------------------------------------------------------------
  // Properties of one line

  /**
   * There is no authentication: a decoded object the older parser accepts,
   * whose `uri` is a string, is acknowledged, its URI is in the tree, and
   * its point is the last one stored for that URI; no other URI's points
   * change.
   */
  lemma AcceptableLineAcks(st: CoreState, line: string, p: Platform, m: map<string, Value>)
    requires p.loads(Raw(line)) == Decoded(Object(m))
    requires LegacyMessage.Acceptable(m, p) && m["uri"].Str?
    ensures var r := Step(st, line, p);
      && r.1 == Ack
      && Segments(m["uri"].s) in r.0.paths
      && Points(r.0.store, m["uri"].s)
           == Points(st.store, m["uri"].s) + [Point(p.fromIsoFormat(Message.IsoText(m["ts"].s)).dt, m["value"])]
      && (forall u :: u != m["uri"].s ==> Points(r.0.store, u) == Points(st.store, u))
  {
    LegacyMessage.LegacyAcceptsExactly(Raw(line), p);
  }

  /** A line is acknowledged exactly when the parser accepts it and its `uri` is a string. */
  lemma AckIff(st: CoreState, line: string, p: Platform)
    ensures Step(st, line, p).1 == Ack <==>
              && p.loads(Raw(line)).Decoded? && p.loads(Raw(line)).value.Object?
              && LegacyMessage.Acceptable(p.loads(Raw(line)).value.fields, p)
              && p.loads(Raw(line)).value.fields["uri"].Str?
  {
    LegacyMessage.LegacyAcceptsExactly(Raw(line), p);
  }

  /** A parse error is answered with its text and changes nothing. */
  lemma ParseErrorReported(st: CoreState, line: string, p: Platform)
    requires LegacyMessage.ParseMessage(Raw(line), p).Fail?
    ensures Step(st, line, p) == (st, Error(LegacyMessage.ParseMessage(Raw(line), p).text))
  {
  }

  /** A `uri` that is not a string makes `exists` raise: the connection ends before anything is stored. */
  lemma NonStringUriCloses(st: CoreState, line: string, p: Platform)
    requires LegacyMessage.ParseMessage(Raw(line), p).Ok?
    requires !LegacyMessage.ParseMessage(Raw(line), p).msg["uri"].Str?
    ensures Step(st, line, p) == (st, Closed)
  {
  }

  /** The step of the loop for one connection. */
  ghost function Stepper(p: Platform): (CoreState, string, nat) -> (CoreState, Effect) {
    (s: CoreState, l: string, i: nat) => Step(s, l, p)
  }

  lemma StepperApplies(p: Platform, st: CoreState, line: string, i: nat)
    ensures Stepper(p)(st, line, i) == Step(st, line, p)
  {
  }

  // ---------------------------------------------------------------------
  // The server

  /** The module globals `uri_tree` and `metric_storage`. */
  class Server {
    const tree: URITree
    const storage: Storage

    ghost predicate Valid()
      reads this, tree, tree.Repr
    {
      tree.Valid()
    }

    ghost function Current(): CoreState
      reads this, tree, storage
    {
      CoreState(tree.paths, storage.store)
    }

    constructor()
      ensures Valid() && fresh(tree) && fresh(tree.Repr) && fresh(storage)
      ensures Current() == CoreState({[]}, map[])
    {
      tree := new URITree();
      storage := new Storage();
    }

    /** One received line. */
    method HandleLine(line: string, p: Platform) returns (e: Effect)
      requires Valid()
      modifies tree, tree.Repr, storage
      ensures Valid() && fresh(tree.Repr - old(tree.Repr))
      ensures (Current(), e) == Step(old(Current()), line, p)
    {
      var raw := Strip(line, Whitespace);
      var parsed := LegacyMessage.ParseMessage(raw, p);
      if parsed.Fail? {
        return Error(parsed.text);
      } else if parsed.Uncaught? {
        return Closed;
      }
      var msg := parsed.msg;
      if !msg["uri"].Str? {
        return Closed;
      }
      Store(msg["uri"].s, p.fromIsoFormat(Message.IsoText(msg["ts"].s)).dt, msg["value"]);
      return Ack;
    }

    /** `uri_tree.insert_uri(uri)` when the URI is new, then `metric_storage.insert(uri, ts, value)`. */
    method Store(uri: string, ts: DateTime, value: Value)
      requires Valid()
      modifies tree, tree.Repr, storage
      ensures Valid() && fresh(tree.Repr - old(tree.Repr))
      ensures tree.paths == Register(old(tree.paths), uri)
      ensures storage.store == old(storage.store)[uri := Points(old(storage.store), uri) + [Point(ts, value)]]
    {
      RegisterUri(tree, uri);
      storage.Insert(uri, ts, value);
    }

    /** The connection: every line received before the client closes, until an exception ends the loop. */
    method Serve(lines: seq<string>, p: Platform) returns (effects: seq<Effect>)
      requires Valid()
      modifies tree, tree.Repr, storage
      ensures Valid() && fresh(tree.Repr - old(tree.Repr))
      ensures (Current(), effects) == Run(old(Current()), lines, Stepper(p))
    {
      ghost var start := Current();
      effects := [];
      var i := 0;
      while i < |lines| && !Stopped(effects)
        invariant Valid() && fresh(tree.Repr - old(tree.Repr)) && 0 <= i <= |lines|
        invariant (Current(), effects) == Runs(start, lines, Stepper(p))[i]
      {
        var e := Next(start, lines, i, effects, p);
        effects := effects + [e];
        i := i + 1;
      }
      RunEnds(start, lines, i, Stepper(p), Current(), effects);
    }

    /** Line `i` of the connection, read while the loop still runs. */
    method Next(ghost start: CoreState, lines: seq<string>, i: nat, ghost effects: seq<Effect>, p: Platform)
      returns (e: Effect)
      requires Valid() && i < |lines| && !Stopped(effects)
      requires (Current(), effects) == Runs(start, lines, Stepper(p))[i]
      modifies tree, tree.Repr, storage
      ensures Valid() && fresh(tree.Repr - old(tree.Repr))
      ensures (Current(), effects + [e]) == Runs(start, lines, Stepper(p))[i + 1]
    {
      ghost var before := Current();
      e := HandleLine(lines[i], p);
      StepperApplies(p, before, lines[i], i);
      RunAdvance(start, lines, i, Stepper(p), before, effects, Current(), e);
    }
  }
}
