/**
 * The per-line body of `handle_client` in server/main.py, the older signed
 * server: no blank-line skip; `signature` popped from the parsed message
 * itself; token, then signature; then the log entry (holding the
 * `datetime` itself) and the cache update, and `ACK`. Only
 * `MessageParseError` is answered; any other exception leaves the loop and
 * the connection is closed.
 */
module ServerMain {
  import opened Wrappers
  import opened Strings
  import opened PyValue
  import opened Runtime
  import opened Json
  import opened Session
  import opened MemoryCache
  import opened LogWriter
  import opened Handler
  import Message

  /** What the handler needs of a parsed message: the six fields and a timestamp that parses again. */
  predicate HasTime(msg: map<string, Value>, p: Platform) {
    Message.WellTyped(msg) && p.fromIsoFormat(Message.IsoText(msg["ts"].s)).Parsed?
  }

  /** `datetime.fromisoformat(msg["ts"].replace("Z", "+00:00"))`, as read again by the handler (not set to UTC). */
  function Time(msg: map<string, Value>, p: Platform): DateTime
    requires HasTime(msg, p)
  {
    p.fromIsoFormat(Message.IsoText(msg["ts"].s)).dt
  }

  /** The state after an accepted message: `{"ts": ts, ...}` queued with `ts` a `datetime`, the cache entry replaced. */
  function Accepted(st: Stores, reg: RegState, msg: map<string, Value>, userId: Value, p: Platform): Stores
    requires HasTime(msg, p)
  {
    Stores(reg, st.queue + [LogEntry(PyValue.Time(Time(msg, p)), msg["uri"], msg["value"], userId)],
           st.cache[msg["uri"].s := CacheEntry(Time(msg, p), msg["value"])])
  }

  /** The signature check and the stores, once the token has given `userId`. */
  function Signed(st: Stores, msg: map<string, Value>, userId: Value, file: RegistryFile, p: Platform, rule: PayloadRule)
    : (r: (Stores, Effect))
    requires HasTime(msg, p)
    ensures r.1 != Silent
    ensures r.1 != Ack ==> r.0.queue == st.queue && r.0.cache == st.cache
    ensures r.1 == Ack ==> |r.0.queue| == |st.queue| + 1 && r.0.queue[..|st.queue|] == st.queue
    ensures r.0.reg in {st.reg, AfterLoad(st.reg, file, p)}
  {
    match SignedPayload(msg, rule, p)
    case None => (st, Closed)
    case Some(payload) =>
      var reg := AfterLoad(st.reg, file, p);
      match CheckHmac(View(reg.db), msg["token"].s, payload, msg["signature"].s, p)
      case Raised => (st.(reg := reg), Closed)
      case Returned(ok) =>
        if !ok then (st.(reg := reg), Error(InvalidSignature))
        else (Accepted(st, reg, msg, userId, p), Ack)
  }

  /** The checks after a successful parse, in the order the handler runs them. */
  function Checked(st: Stores, msg: map<string, Value>, file: RegistryFile, now: int, p: Platform, rule: PayloadRule)
    : (r: (Stores, Effect))
    requires HasTime(msg, p)
    ensures r.1 != Silent
    ensures r.1 != Ack ==> r.0.queue == st.queue && r.0.cache == st.cache
    ensures r.1 == Ack ==> |r.0.queue| == |st.queue| + 1 && r.0.queue[..|st.queue|] == st.queue
    ensures r.0.reg in {st.reg, AfterLoad(st.reg, file, p), AfterLoad(AfterLoad(st.reg, file, p), file, p)}
  {
    if !Truthy(msg["token"]) || !Truthy(msg["signature"]) then (st, Error(MissingCredentials))
    else
      var st1 := st.(reg := AfterLoad(st.reg, file, p));
      match CheckToken(View(st1.reg.db), st1.reg.loadedOk, msg["token"].s, now, p)
      case Raised => (st1, Closed)
      case Returned(userId) =>
        if userId.None? then (st1, Error(InvalidToken))
        else Signed(st1, msg, userId.value, file, p, rule)
  }

  /** One line through the loop: every line, blank or not, is parsed and answered, unless an exception escapes. */
  function Step(st: Stores, line: string, file: RegistryFile, now: int, p: Platform, rule: PayloadRule)
    : (r: (Stores, Effect))
    ensures r.1 != Silent
    ensures r.1 != Ack ==> r.0.queue == st.queue && r.0.cache == st.cache
    ensures r.1 == Ack ==> |r.0.queue| == |st.queue| + 1 && r.0.queue[..|st.queue|] == st.queue
    ensures r.0.reg in {st.reg, AfterLoad(st.reg, file, p), AfterLoad(AfterLoad(st.reg, file, p), file, p)}
  {
    match Message.ParseMessage(Raw(line), p)
    case Fail(e) => (st, Error(e.Text()))
    case Uncaught => (st, Closed)
    case Ok(msg) => Checked(st, msg, file, now, p, rule)
  }

  // ---------------------------------------------------------------------
  // Properties of one line

  /** An empty line is not skipped: it reaches `parse_message`, whose decoding error is sent back. */
  lemma BlankLineAnswered(st: Stores, line: string, file: RegistryFile, now: int, p: Platform, rule: PayloadRule)
    requires Raw(line) == "" && p.loads("").DecodeError?
    ensures Step(st, line, file, now, p, rule) == (st, Error(Message.InvalidJson(p.loads("").detail).Text()))
  {
  }

  /** Without a token and a signature the registry is not even loaded. */
  lemma MissingCredentialsFirst(st: Stores, line: string, file: RegistryFile, now: int, p: Platform, rule: PayloadRule)
    requires Message.ParseMessage(Raw(line), p).Ok?
    requires var msg := Message.ParseMessage(Raw(line), p).msg; msg["token"] == Str("") || msg["signature"] == Str("")
    ensures Step(st, line, file, now, p, rule) == (st, Error(MissingCredentials))
  {
  }

  /** A token the registry refuses ends the checks: the signature is never looked at. */
  lemma InvalidTokenSkipsSignature(st: Stores, line: string, file: RegistryFile, now: int, p: Platform, rule: PayloadRule)
    requires Message.ParseMessage(Raw(line), p).Ok?
    requires var msg := Message.ParseMessage(Raw(line), p).msg;
      && Truthy(msg["token"]) && Truthy(msg["signature"])
      && var reg := AfterLoad(st.reg, file, p);
         CheckToken(View(reg.db), reg.loadedOk, msg["token"].s, now, p) == Returned(None)
    ensures Step(st, line, file, now, p, rule) == (st.(reg := AfterLoad(st.reg, file, p)), Error(InvalidToken))
  {
  }

  /** The entry an accepted signature queues carries the time read from `ts`. */
  lemma SignedAckQueuesTime(st: Stores, msg: map<string, Value>, userId: Value, file: RegistryFile, p: Platform, rule: PayloadRule)
    requires HasTime(msg, p) && Signed(st, msg, userId, file, p, rule).1 == Ack
    ensures var q := Signed(st, msg, userId, file, p, rule).0.queue;
      q != [] && q[|q| - 1].Object? && "ts" in q[|q| - 1].fields && q[|q| - 1].fields["ts"] == PyValue.Time(Time(msg, p))
  {
    var reg := AfterLoad(st.reg, file, p);
    assert Signed(st, msg, userId, file, p, rule).0 == Accepted(st, reg, msg, userId, p);
  }

  /** So does the entry of a message that passes every check. */
  lemma CheckedAckQueuesTime(st: Stores, msg: map<string, Value>, file: RegistryFile, now: int, p: Platform, rule: PayloadRule)
    requires HasTime(msg, p) && Checked(st, msg, file, now, p, rule).1 == Ack
    ensures var q := Checked(st, msg, file, now, p, rule).0.queue;
      q != [] && q[|q| - 1].Object? && "ts" in q[|q| - 1].fields && q[|q| - 1].fields["ts"] == PyValue.Time(Time(msg, p))
  {
    var st1 := st.(reg := AfterLoad(st.reg, file, p));
    var userId := CheckToken(View(st1.reg.db), st1.reg.loadedOk, msg["token"].s, now, p).value.value;
    assert Checked(st, msg, file, now, p, rule) == Signed(st1, msg, userId, file, p, rule);
    SignedAckQueuesTime(st1, msg, userId, file, p, rule);
  }

  /**
   * The entry queued for an acknowledged line holds the `datetime` itself,
   * which `json.dumps` refuses: the log writer drops it.
   */
  lemma AckedEntryIsNotJson(st: Stores, line: string, file: RegistryFile, now: int, p: Platform, rule: PayloadRule)
    requires Step(st, line, file, now, p, rule).1 == Ack
    ensures var q := Step(st, line, file, now, p, rule).0.queue;
      q != [] && q[|q| - 1].Object? && "ts" in q[|q| - 1].fields && q[|q| - 1].fields["ts"].Time? && !IsJson(q[|q| - 1])
  {
    var parsed := Message.ParseMessage(Raw(line), p);
    assert parsed.Ok?;
    assert Step(st, line, file, now, p, rule) == Checked(st, parsed.msg, file, now, p, rule);
    CheckedAckQueuesTime(st, parsed.msg, file, now, p, rule);
    var q := Step(st, line, file, now, p, rule).0.queue;
    HoldsTimeNotJson(q[|q| - 1].fields, "ts");
  }

  lemma HoldsTimeNotJson(fields: map<string, Value>, k: string)
    requires k in fields && fields[k].Time?
    ensures !IsJson(Object(fields))
  {
    assert !IsJson(fields[k]);
  }

  // ---------------------------------------------------------------------
  // The signed payload

  /**
   * As written, a parsed message whose token the registry accepts closes
   * the connection:
   * `json.dumps` raises on the `datetime` under `ts_datetime`, and the
   * exception is not caught per line.
   */
  lemma AsWrittenClosesOnValidToken(st: Stores, msg: map<string, Value>, file: RegistryFile, now: int, p: Platform)
    requires HasTime(msg, p) && "ts_datetime" in msg && msg["ts_datetime"].Time?
    requires Truthy(msg["token"]) && Truthy(msg["signature"])
    requires var reg := AfterLoad(st.reg, file, p);
      && CheckToken(View(reg.db), reg.loadedOk, msg["token"].s, now, p).Returned?
      && CheckToken(View(reg.db), reg.loadedOk, msg["token"].s, now, p).value.Some?
    ensures Checked(st, msg, file, now, p, AsWritten) == (st.(reg := AfterLoad(st.reg, file, p)), Closed)
  {
    AsWrittenPayloadFails(msg, p);
  }

  /** As written, no parsed message passes the signature check. */
  lemma CheckedAsWrittenNeverAcks(st: Stores, msg: map<string, Value>, file: RegistryFile, now: int, p: Platform)
    requires HasTime(msg, p) && "ts_datetime" in msg && msg["ts_datetime"].Time?
    ensures Checked(st, msg, file, now, p, AsWritten).1 != Ack
  {
    AsWrittenPayloadFails(msg, p);
  }

  /** Hence, as written, no line is ever acknowledged. */
  lemma AsWrittenNeverAcks(st: Stores, line: string, file: RegistryFile, now: int, p: Platform)
    ensures Step(st, line, file, now, p, AsWritten).1 != Ack
  {
    var parsed := Message.ParseMessage(Raw(line), p);
    if parsed.Ok? {
      CheckedAsWrittenNeverAcks(st, parsed.msg, file, now, p);
      assert Step(st, line, file, now, p, AsWritten) == Checked(st, parsed.msg, file, now, p, AsWritten);
    }
  }

  /** A registry that holds nothing accepts no token. */
  lemma AcceptedTokenMeansLoaded(reg: RegState, token: string, now: int, p: Platform)
    requires CheckToken(View(reg.db), reg.loadedOk, token, now, p).Returned?
    requires CheckToken(View(reg.db), reg.loadedOk, token, now, p).value.Some?
    ensures reg.db.Some?
  {
  }

  /** Once the registry holds the token's secret, a signature equal to the expected digest is accepted and the message stored. */
  lemma SignedAccepts(st: Stores, msg: map<string, Value>, userId: Value, file: RegistryFile, p: Platform,
                      secret: string, payload: string)
    requires HasTime(msg, p)
    requires st.reg.db.Some?
    requires GetSecret(View(st.reg.db), msg["token"].s) == Returned(Str(secret)) && secret != ""
    requires SignedPayload(msg, Intended, p) == Some(payload)
    requires msg["signature"].s == ExpectedSignature(secret, payload, p)
    ensures Signed(st, msg, userId, file, p, Intended) == (Accepted(st, st.reg, msg, userId, p), Ack)
  {
    SignatureAcceptedIffDigest(View(st.reg.db), msg["token"].s, payload, msg["signature"].s, p);
  }

  /** With the intended payload, a message signed under its token's secret passes every check. */
  lemma CheckedAcceptsSigned(st: Stores, msg: map<string, Value>, file: RegistryFile, now: int, p: Platform,
                             userId: Value, secret: string, payload: string)
    requires HasTime(msg, p)
    requires msg["token"].s != "" && msg["signature"].s != ""
    requires var reg := AfterLoad(st.reg, file, p);
      && CheckToken(View(reg.db), reg.loadedOk, msg["token"].s, now, p) == Returned(Some(userId))
      && GetSecret(View(reg.db), msg["token"].s) == Returned(Str(secret)) && secret != ""
    requires SignedPayload(msg, Intended, p) == Some(payload)
    requires msg["signature"].s == ExpectedSignature(secret, payload, p)
    ensures Checked(st, msg, file, now, p, Intended) == (Accepted(st, AfterLoad(st.reg, file, p), msg, userId, p), Ack)
  {
    var reg := AfterLoad(st.reg, file, p);
    AcceptedTokenMeansLoaded(reg, msg["token"].s, now, p);
    var st1 := st.(reg := reg);
    SignedAccepts(st1, msg, userId, file, p, secret, payload);
    assert Truthy(msg["token"]) && Truthy(msg["signature"]);
    assert Checked(st, msg, file, now, p, Intended) == Signed(st1, msg, userId, file, p, Intended);
  }

  /**
   * With the intended payload, a well-formed message signed by the holder
   * of a valid token (the hex HMAC-SHA256 of the decoded object without
   * its signature, under the token's secret) is acknowledged, queued and
   * cached.
   */
  lemma IntendedAcksSignedLine(st: Stores, line: string, file: RegistryFile, now: int, p: Platform,
                               m: map<string, Value>, userId: Value, secret: string)
    requires p.loads(Raw(line)) == Decoded(Object(m))
    requires "ts_datetime" !in m && (forall k :: k in m ==> IsJson(m[k]))
    requires Message.Acceptable(m, p)
    requires m["token"].s != "" && m["signature"].s != ""
    requires var reg := AfterLoad(st.reg, file, p);
      && CheckToken(View(reg.db), reg.loadedOk, m["token"].s, now, p) == Returned(Some(userId))
      && GetSecret(View(reg.db), m["token"].s) == Returned(Str(secret)) && secret != ""
    requires CanonicalPayload(m - {"signature"}, p).Some?
    requires m["signature"].s == ExpectedSignature(secret, CanonicalPayload(m - {"signature"}, p).value, p)
    ensures Message.ParseMessage(Raw(line), p) == Message.Ok(Message.Stamped(m, p))
    ensures Step(st, line, file, now, p, Intended) == (Accepted(st, AfterLoad(st.reg, file, p), Message.Stamped(m, p), userId, p), Ack)
  {
    var msg := Message.Stamped(m, p);
    Message.ParsesToStamped(Raw(line), m, p);
    IntendedPayloadIsSigned(m, msg, p);
    CheckedAcceptsSigned(st, msg, file, now, p, userId, secret, CanonicalPayload(m - {"signature"}, p).value);
  }

  /** Popping `signature` first does not change the payload that is serialised. */
  lemma PopKeepsPayload(msg: map<string, Value>, rule: PayloadRule, p: Platform)
    ensures SignedPayload(msg - {"signature"}, rule, p) == SignedPayload(msg, rule, p)
  {
    assert msg - {"signature"} - {"signature"} == msg - {"signature"};
    assert msg - {"signature"} - {"signature", "ts_datetime"} == msg - {"signature", "ts_datetime"};
  }

  /** The step of the loop for one connection: the registry file, the clock and the payload rule fixed. */
  function Stepper(file: RegistryFile, clock: nat -> int, p: Platform, rule: PayloadRule): (Stores, string, nat) -> (Stores, Effect) {
    (s: Stores, l: string, i: nat) => Step(s, l, file, clock(i), p, rule)
  }

  lemma StepperApplies(file: RegistryFile, clock: nat -> int, p: Platform, rule: PayloadRule, st: Stores, line: string, i: nat)
    ensures Stepper(file, clock, p, rule)(st, line, i) == Step(st, line, file, clock(i), p, rule)
  {
  }

  // ---------------------------------------------------------------------
  // The server

  /** The module globals `log_writer` and `metric_cache`, and the session module's registry. */
  class Server {
    const registry: TokenRegistry
    const writer: LogWriter
    const cache: MetricCache
    /** Which payload the signature is checked against. */
    const rule: PayloadRule

    ghost predicate Valid()
      reads this, writer
    {
      writer.Valid()
    }

    function Current(): Stores
      reads this, registry, writer, cache
    {
      Stores(RegState(registry.db, registry.loadedOk), writer.queue, cache.cache)
    }

    constructor(logDir: string, files: map<string, string>, rule: PayloadRule)
      ensures Valid() && fresh(registry) && fresh(writer) && fresh(cache)
      ensures Current() == Stores(RegState(None, false), [], map[]) && this.rule == rule
      ensures writer.files == files
    {
      registry := new TokenRegistry();
      writer := new LogWriter(logDir, files);
      cache := new MetricCache();
      this.rule := rule;
    }

    /** One received line: `file` is the registry file, `now` the clock when the token is checked. */
    method HandleLine(line: string, file: RegistryFile, now: int, p: Platform) returns (e: Effect)
      requires Valid()
      modifies registry, writer, cache
      ensures Valid()
      ensures (Current(), e) == Step(old(Current()), line, file, now, p, rule)
      ensures writer.files == old(writer.files)
    {
      var raw := Strip(line, Whitespace);
      var parsed := Message.ParseMessage(raw, p);
      if parsed.Fail? {
        return Error(parsed.error.Text());
      } else if parsed.Uncaught? {
        return Closed;
      }
      var msg := parsed.msg;
      var token := PyValue.Get(msg, "token");
      var signature := PyValue.Get(msg, "signature");
      msg := msg - {"signature"};
      if !Truthy(token) || !Truthy(signature) {
        return Error(MissingCredentials);
      }
      var userId := registry.VerifyToken(token.s, file, now, p);
      if userId.Raised? {
        return Closed;
      } else if userId.value.None? {
        return Error(InvalidToken);
      }
      e := HandleSigned(parsed.msg, msg, userId.value.value, file, p);
    }

    /** The signature check over the message with `signature` popped, then the log queue and the cache. */
    method HandleSigned(parsed: map<string, Value>, msg: map<string, Value>, userId: Value, file: RegistryFile, p: Platform)
      returns (e: Effect)
      requires Valid() && HasTime(parsed, p) && msg == parsed - {"signature"}
      modifies registry, writer, cache
      ensures Valid()
      ensures (Current(), e) == Signed(old(Current()), parsed, userId, file, p, rule)
      ensures writer.files == old(writer.files)
    {
      ghost var st := Current();
      PopKeepsPayload(parsed, rule, p);
      var payload := SignedPayload(msg, rule, p);
      if payload.None? {
        return Closed;
      }
      var ok := registry.VerifyHmac(parsed["token"].s, payload.value, parsed["signature"].s, file, p);
      ghost var checked := st.(reg := AfterLoad(st.reg, file, p));
      assert Current() == checked;
      if ok.Raised? {
        return Closed;
      } else if !ok.value {
        return Error(InvalidSignature);
      }
      Store(parsed, userId, p);
      return Ack;
    }

    /** `log_writer.append({...})`, then `metric_cache.update(uri, value, ts)`. */
    method Store(msg: map<string, Value>, userId: Value, p: Platform)
      requires Valid() && HasTime(msg, p)
      modifies writer, cache
      ensures Valid()
      ensures Current() == Accepted(old(Current()), old(Current()).reg, msg, userId, p)
      ensures writer.files == old(writer.files)
    {
      var ts := p.fromIsoFormat(Message.IsoText(msg["ts"].s)).dt;
      writer.Append(LogEntry(PyValue.Time(ts), msg["uri"], msg["value"], userId));
      cache.Update(msg["uri"].s, msg["value"], ts);
    }

    /**
     * The connection: every line received before the client closes, line
     * `i` checked against the clock reading `clock(i)`, until an exception
     * ends the loop.
     */
    method Serve(lines: seq<string>, file: RegistryFile, clock: nat -> int, p: Platform) returns (effects: seq<Effect>)
      requires Valid()
      modifies registry, writer, cache
      ensures Valid()
      ensures (Current(), effects) == Run(old(Current()), lines, Stepper(file, clock, p, rule))
    {
      ghost var start := Current();
      effects := [];
      var i := 0;
      while i < |lines| && !Stopped(effects)
        invariant Valid() && 0 <= i <= |lines|
        invariant (Current(), effects) == Runs(start, lines, Stepper(file, clock, p, rule))[i]
      {
        var e := Next(start, lines, i, effects, file, clock, p);
        effects := effects + [e];
        i := i + 1;
      }
      RunEnds(start, lines, i, Stepper(file, clock, p, rule), Current(), effects);
    }

    /** Line `i` of the connection, read while the loop still runs. */
    method Next(ghost start: Stores, lines: seq<string>, i: nat, ghost effects: seq<Effect>,
                file: RegistryFile, clock: nat -> int, p: Platform) returns (e: Effect)
      requires Valid() && i < |lines| && !Stopped(effects)
      requires (Current(), effects) == Runs(start, lines, Stepper(file, clock, p, rule))[i]
      modifies registry, writer, cache
      ensures Valid()
      ensures (Current(), effects + [e]) == Runs(start, lines, Stepper(file, clock, p, rule))[i + 1]
    {
      ghost var before := Current();
      e := HandleLine(lines[i], file, clock(i), p);
      StepperApplies(file, clock, p, rule, before, lines[i], i);
      RunAdvance(start, lines, i, Stepper(file, clock, p, rule), before, effects, Current(), e);
    }
  }
}
