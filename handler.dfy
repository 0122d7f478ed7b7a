/**
 * What the four `handle_client` variants (apps/server/main.py,
 * server/main.py, server/app/main.py, core/app/main.py) share: the reply a
 * line gets, the memoised token registry they consult, the signed payload,
 * and the per-connection loop that hands each line to the step of its
 * server until the client closes or an exception escapes.
 */
module Handler {
  import opened Wrappers
  import opened Strings
  import opened PyValue
  import opened Runtime
  import opened Json
  import opened Session
  import opened MemoryCache

  /** What one received line leads to. */
  datatype Effect =
    | Silent               // nothing is written (a blank line)
    | Error(text: string)  // `ERROR: <text>` is written
    | Ack                  // `ACK` is written
    | Closed               // an exception escapes the loop and the connection ends

  /** The line with surrounding whitespace removed (`data.decode().strip()`). */
  function Raw(line: string): string {
    Strip(line, Whitespace)
  }

  /** A line holding one JSON object and its newline reads back as the object's text. */
  lemma RawOfObjectLine(text: string)
    requires |text| >= 2 && text[0] == '{' && text[|text| - 1] == '}'
    ensures Raw(text + "\n") == text
  {
    assert '{' !in Whitespace && '}' !in Whitespace && '\n' in Whitespace by {
      assert !IsWhitespace('{') && !IsWhitespace('}') && IsWhitespace('\n');
    }
    StripPadding(text, "\n", Whitespace);
  }

  /** The bytes written back for a line, without the newline. */
  function Reply(e: Effect): (r: Option<string>)
    ensures r.Some? <==> e.Error? || e.Ack?
    ensures e.Error? ==> r.value == "ERROR: " + e.text
  {
    match e
    case Error(text) => Some("ERROR: " + text)
    case Ack => Some("ACK")
    case _ => None
  }

  const InternalError := "Internal server error"
  const MissingCredentials := "Missing token or signature"
  const InvalidToken := "Invalid or expired token"
  const InvalidSignature := "Invalid signature"

  /** The dictionary a handler puts on the log queue: `{"ts": ts, "uri": uri, "value": value, "user_id": user_id}`. */
  function LogEntry(ts: Value, uri: Value, value: Value, userId: Value): (r: Value)
    ensures r.Object? && r.fields.Keys == {"ts", "uri", "value", "user_id"}
    ensures r.fields["ts"] == ts && r.fields["uri"] == uri && r.fields["value"] == value && r.fields["user_id"] == userId
  {
    Object(map["ts" := ts, "uri" := uri, "value" := value, "user_id" := userId])
  }

  /** The globals `_token_db` and `_token_db_loaded_successfully` of the session module. */
  datatype RegState = RegState(db: Option<Value>, loadedOk: bool)

  /** What a signed line can change: the token registry's globals, the log queue and the metric cache. */
  datatype Stores = Stores(reg: RegState, queue: seq<Value>, cache: map<string, CacheEntry>)

  /** The registry after `load_token_registry`: read from `file` only while nothing is cached. */
  function AfterLoad(s: RegState, file: RegistryFile, p: Platform): (r: RegState)
    ensures s.db.Some? ==> r == s
    ensures s.db.None? ==> (r.db, r.loadedOk) == Loaded(file, p)
  {
    if s.db.Some? then s else RegState(Loaded(file, p).0, Loaded(file, p).1)
  }

  /** Loading twice is loading once, as long as the file does not decode to `null`. */
  lemma AfterLoadIdempotent(s: RegState, file: RegistryFile, p: Platform)
    requires !(file.Content? && p.loads(file.text) == Decoded(Null))
    ensures AfterLoad(AfterLoad(s, file, p), file, p) == AfterLoad(s, file, p)
    ensures AfterLoad(s, file, p).db.Some?
  {
  }

  /**
   * Which dictionary the server serialises to check the signature: the
   * source's (`parse_message`'s result without `signature`, which still
   * holds the `datetime` under `ts_datetime`), or the one the agent signed
   * (without `ts_datetime` as well).
   */
  datatype PayloadRule = AsWritten | Intended

  /** `json.dumps(msg_without_signature, separators=(",", ":"), sort_keys=True)`; `None` where it raises. */
  function SignedPayload(msg: map<string, Value>, rule: PayloadRule, p: Platform): Option<string> {
    match rule
    case AsWritten => CanonicalPayload(msg - {"signature"}, p)
    case Intended => CanonicalPayload(msg - {"signature", "ts_datetime"}, p)
  }

  /** Once `ts_datetime` holds a `datetime`, the payload of the source cannot be serialised. */
  lemma AsWrittenPayloadFails(msg: map<string, Value>, p: Platform)
    requires "ts_datetime" in msg && msg["ts_datetime"].Time?
    ensures SignedPayload(msg, AsWritten, p).None?
  {
    CanonicalPayloadDefinedIff(msg - {"signature"}, p);
    assert "ts_datetime" in msg - {"signature"};
  }

  /**
   * The intended payload of a parsed message is the canonical form of the
   * decoded object without its signature: the bytes the client signed.
   */
  lemma IntendedPayloadIsSigned(before: map<string, Value>, after: map<string, Value>, p: Platform)
    requires "ts_datetime" !in before
    requires after.Keys == before.Keys + {"ts_datetime"}
    requires forall k :: k in before ==> after[k] == before[k]
    ensures SignedPayload(after, Intended, p) == CanonicalPayload(before - {"signature"}, p)
  {
    assert after - {"signature", "ts_datetime"} == before - {"signature"};
  }

  /** A step that ends the connection. */
  predicate Stopped(out: seq<Effect>) {
    out != [] && out[|out| - 1] == Closed
  }

  /**
   * The `while True` loop of `handle_client` over the first `n` lines
   * received: each line goes through `step` (which also gets its index,
   * so that the clock can move) until one raises.
   */
  function RunFirst<S>(st: S, lines: seq<string>, n: nat, step: (S, string, nat) -> (S, Effect)): (r: (S, seq<Effect>))
    requires n <= |lines|
    ensures |r.1| <= n
    ensures forall j :: 0 <= j < |r.1| - 1 ==> r.1[j] != Closed
    decreases n, 0
  {
    if n == 0 then (st, []) else RunOneMore(st, lines, n - 1, step)
  }

  /** The first `k + 1` lines: those before line `k`, then line `k` itself unless the loop has stopped. */
  function RunOneMore<S>(st: S, lines: seq<string>, k: nat, step: (S, string, nat) -> (S, Effect)): (r: (S, seq<Effect>))
    requires k < |lines|
    ensures |r.1| <= k + 1
    ensures forall j :: 0 <= j < |r.1| - 1 ==> r.1[j] != Closed
    decreases k, 1
  {
    var prev := RunFirst(st, lines, k, step);
    if Stopped(prev.1) then prev
    else
      var next := step(prev.0, lines[k], k);
      (next.0, prev.1 + [next.1])
  }

  /** The loop over every line received before the client closes. */
  function Run<S>(st: S, lines: seq<string>, step: (S, string, nat) -> (S, Effect)): (r: (S, seq<Effect>))
    ensures |r.1| <= |lines|
    ensures forall j :: 0 <= j < |r.1| - 1 ==> r.1[j] != Closed
  {
    RunFirst(st, lines, |lines|, step)
  }

  /** The state and answers after each prefix of the lines: entry `k` is the run over the first `k`. */
  ghost function Runs<S>(st: S, lines: seq<string>, step: (S, string, nat) -> (S, Effect)): (r: seq<(S, seq<Effect>)>)
    ensures |r| == |lines| + 1
    ensures forall k :: 0 <= k <= |lines| ==> r[k] == RunFirst(st, lines, k, step)
  {
    seq(|lines| + 1, k requires 0 <= k <= |lines| => RunFirst(st, lines, k, step))
  }

  /** Once a line has ended the connection, the lines after it are never read. */
  lemma {:induction false} RunStopsAtClose<S>(st: S, lines: seq<string>, i: nat, step: (S, string, nat) -> (S, Effect))
    requires i <= |lines| && Stopped(RunFirst(st, lines, i, step).1)
    ensures Run(st, lines, step) == RunFirst(st, lines, i, step)
    decreases |lines| - i
  {
    if i < |lines| {
      RunStopsAtClose(st, lines, i + 1, step);
    }
  }

  /** A loop that has read every line, or has stopped at a close, has produced the whole run. */
  lemma RunEnds<S>(st: S, lines: seq<string>, i: nat, step: (S, string, nat) -> (S, Effect), s: S, effects: seq<Effect>)
    requires i <= |lines| && (s, effects) == Runs(st, lines, step)[i]
    requires i == |lines| || Stopped(effects)
    ensures (s, effects) == Run(st, lines, step)
  {
    if i < |lines| {
      RunStopsAtClose(st, lines, i, step);
    }
  }

  /** One more line through a loop that has not stopped: its answer is appended. */
  lemma RunAdvance<S>(st: S, lines: seq<string>, i: nat, step: (S, string, nat) -> (S, Effect),
                      s: S, effects: seq<Effect>, s': S, e: Effect)
    requires i < |lines| && (s, effects) == Runs(st, lines, step)[i] && !Stopped(effects)
    requires (s', e) == step(s, lines[i], i)
    ensures (s', effects + [e]) == Runs(st, lines, step)[i + 1]
  {
    assert RunFirst(st, lines, i + 1, step) == RunOneMore(st, lines, i, step);
  }

  lemma NeverClosesAt<S>(step: (S, string, nat) -> (S, Effect), s: S, l: string, i: nat)
    requires forall s: S, l: string, i: nat :: step(s, l, i).1 != Closed
    ensures step(s, l, i).1 != Closed
  {
  }

  /** A loop whose step never raises answers every line, in order. */
  lemma {:induction false} RunAnswersEveryLine<S>(st: S, lines: seq<string>, n: nat, step: (S, string, nat) -> (S, Effect))
    requires n <= |lines|
    requires forall s: S, l: string, i: nat :: step(s, l, i).1 != Closed
    ensures |RunFirst(st, lines, n, step).1| == n
    ensures forall j :: 0 <= j < n ==> RunFirst(st, lines, n, step).1[j] == step(RunFirst(st, lines, j, step).0, lines[j], j).1
  {
    if n > 0 {
      RunAnswersEveryLine(st, lines, n - 1, step);
      var prev := RunFirst(st, lines, n - 1, step);
      assert !Stopped(prev.1) by {
        if prev.1 != [] {
          var k := n - 2;
          NeverClosesAt(step, RunFirst(st, lines, k, step).0, lines[k], k);
        }
      }
    }
  }
}
