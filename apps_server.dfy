/**
 * The per-line body of `handle_client` in apps/server/main.py: skip a
 * blank line; parse; require a token and a signature; verify the token,
 * then the HMAC signature over the message without its signature; then
 * queue a log entry, update the metric cache and answer `ACK`. Every
 * failure answers with an `ERROR:` line and leaves the stores as they were.
 */
module AppsServer {
  import opened Wrappers
  import opened Strings
  import opened PyValue
  import opened Runtime
  import opened Json
  import opened Session
  import opened MemoryCache
  import opened LogWriter
  import opened Handler
  import Message

  /** The log entry of an accepted message: its time as ISO text, its URI and value, and the user. */
  function Entry(msg: map<string, Value>, userId: Value, p: Platform): Value
    requires "ts_datetime" in msg && msg["ts_datetime"].Time? && "uri" in msg && "value" in msg
  {
    LogEntry(Str(p.isoFormat(msg["ts_datetime"].dt)), msg["uri"], msg["value"], userId)
  }

  /** The state after an accepted message: one entry queued, the URI's cache entry replaced. */
  function Accepted(st: Stores, reg: RegState, msg: map<string, Value>, userId: Value, p: Platform): Stores
    requires Message.WellTyped(msg) && "ts_datetime" in msg && msg["ts_datetime"].Time?
  {
    Stores(reg, st.queue + [Entry(msg, userId, p)], st.cache[msg["uri"].s := CacheEntry(msg["ts_datetime"].dt, msg["value"])])
  }

  /** The checks after a successful parse, in the order the handler runs them. */
  function Checked(st: Stores, msg: map<string, Value>, file: RegistryFile, now: int, p: Platform, rule: PayloadRule)
    : (r: (Stores, Effect))
    requires Message.WellTyped(msg) && "ts_datetime" in msg && msg["ts_datetime"].Time?
    ensures r.1 != Closed && r.1 != Silent
    ensures r.1 != Ack ==> r.0.queue == st.queue && r.0.cache == st.cache
    ensures r.1 == Ack ==> |r.0.queue| == |st.queue| + 1 && r.0.queue[..|st.queue|] == st.queue
    ensures r.0.reg in {st.reg, AfterLoad(st.reg, file, p), AfterLoad(AfterLoad(st.reg, file, p), file, p)}
  {
    var token, signature := msg["token"], msg["signature"];
    if !Truthy(token) || !Truthy(signature) then (st, Error(MissingCredentials))
    else
      var st1 := st.(reg := AfterLoad(st.reg, file, p));
      match CheckToken(View(st1.reg.db), st1.reg.loadedOk, token.s, now, p)
      case Raised => (st1, Error(InternalError))
      case Returned(userId) =>
        if userId.None? then (st1, Error(InvalidToken))
        else Signed(st1, msg, userId.value, file, p, rule)
  }

  /** The signature check and the stores, once the token has given `userId`. */
  function Signed(st: Stores, msg: map<string, Value>, userId: Value, file: RegistryFile, p: Platform, rule: PayloadRule)
    : (r: (Stores, Effect))
    requires Message.WellTyped(msg) && "ts_datetime" in msg && msg["ts_datetime"].Time?
    ensures r.1 != Closed && r.1 != Silent
    ensures r.1 != Ack ==> r.0.queue == st.queue && r.0.cache == st.cache
    ensures r.1 == Ack ==> |r.0.queue| == |st.queue| + 1 && r.0.queue[..|st.queue|] == st.queue
    ensures r.0.reg in {st.reg, AfterLoad(st.reg, file, p)}
  {
    match SignedPayload(msg, rule, p)
    case None => (st, Error(InternalError))
    case Some(payload) =>
      var reg := AfterLoad(st.reg, file, p);
      match CheckHmac(View(reg.db), msg["token"].s, payload, msg["signature"].s, p)
      case Raised => (st.(reg := reg), Error(InternalError))
      case Returned(ok) =>
        if !ok then (st.(reg := reg), Error(InvalidSignature))
        else (Accepted(st, reg, msg, userId, p), Ack)
  }

  /**
   * One line through the loop. A blank line is skipped; a parse error is
   * answered with its text, any other exception with
   * `Internal server error`; the connection always stays open.
   */
  function Step(st: Stores, line: string, file: RegistryFile, now: int, p: Platform, rule: PayloadRule)
    : (r: (Stores, Effect))
    ensures r.1 != Closed
    ensures r.1 == Silent <==> Raw(line) == ""
    ensures r.1 != Ack ==> r.0.queue == st.queue && r.0.cache == st.cache
    ensures r.1 == Ack ==> |r.0.queue| == |st.queue| + 1 && r.0.queue[..|st.queue|] == st.queue
    ensures r.0.reg in {st.reg, AfterLoad(st.reg, file, p), AfterLoad(AfterLoad(st.reg, file, p), file, p)}
  {
    var raw := Raw(line);
    if raw == "" then (st, Silent)
    else
      match Message.ParseMessage(raw, p)
      case Fail(e) => (st, Error(e.Text()))
      case Uncaught => (st, Error(InternalError))
      case Ok(msg) =>
        Checked(st, msg, file, now, p, rule)
  }

  // ---------------------------------------------------------------------
  // The order of the checks

  /** A parse failure is answered with its text and nothing else happens, the registry included. */
  lemma ParseErrorReported(st: Stores, line: string, file: RegistryFile, now: int, p: Platform, rule: PayloadRule)
    requires Raw(line) != ""
    ensures Message.ParseMessage(Raw(line), p).Fail? ==>
              Step(st, line, file, now, p, rule) == (st, Error(Message.ParseMessage(Raw(line), p).error.Text()))
    ensures Message.ParseMessage(Raw(line), p).Uncaught? ==> Step(st, line, file, now, p, rule) == (st, Error(InternalError))
  {
  }

  /** Without a token and a signature the registry is not even loaded. */
  lemma MissingCredentialsFirst(st: Stores, line: string, file: RegistryFile, now: int, p: Platform, rule: PayloadRule)
    requires Raw(line) != "" && Message.ParseMessage(Raw(line), p).Ok?
    requires var msg := Message.ParseMessage(Raw(line), p).msg; msg["token"] == Str("") || msg["signature"] == Str("")
    ensures Step(st, line, file, now, p, rule) == (st, Error(MissingCredentials))
  {
  }

  /** A token the registry refuses ends the checks: the signature is never looked at. */
  lemma InvalidTokenSkipsSignature(st: Stores, line: string, file: RegistryFile, now: int, p: Platform, rule: PayloadRule)
    requires Raw(line) != "" && Message.ParseMessage(Raw(line), p).Ok?
    requires var msg := Message.ParseMessage(Raw(line), p).msg;
      && Truthy(msg["token"]) && Truthy(msg["signature"])
      && var reg := AfterLoad(st.reg, file, p);
         CheckToken(View(reg.db), reg.loadedOk, msg["token"].s, now, p) == Returned(None)
    ensures Step(st, line, file, now, p, rule) == (st.(reg := AfterLoad(st.reg, file, p)), Error(InvalidToken))
  {
  }

  /** A line is acknowledged only after the token and then the signature have been accepted. */
  lemma AckNeedsTokenAndSignature(st: Stores, line: string, file: RegistryFile, now: int, p: Platform, rule: PayloadRule)
    requires Step(st, line, file, now, p, rule).1 == Ack
    ensures Raw(line) != "" && Message.ParseMessage(Raw(line), p).Ok?
    ensures var msg := Message.ParseMessage(Raw(line), p).msg;
      var reg1 := AfterLoad(st.reg, file, p);
      var reg2 := AfterLoad(reg1, file, p);
      && Truthy(msg["token"]) && Truthy(msg["signature"])
      && CheckToken(View(reg1.db), reg1.loadedOk, msg["token"].s, now, p).Returned?
      && CheckToken(View(reg1.db), reg1.loadedOk, msg["token"].s, now, p).value.Some?
      && SignedPayload(msg, rule, p).Some?
      && CheckHmac(View(reg2.db), msg["token"].s, SignedPayload(msg, rule, p).value, msg["signature"].s, p) == Returned(true)
      && Step(st, line, file, now, p, rule).0 ==
           Accepted(st, reg2, msg, CheckToken(View(reg1.db), reg1.loadedOk, msg["token"].s, now, p).value.value, p)
  {
  }

  // ---------------------------------------------------------------------
  // The signed payload

  /** As written, no parsed message passes the signature check. */
  lemma CheckedAsWrittenNeverAcks(st: Stores, msg: map<string, Value>, file: RegistryFile, now: int, p: Platform)
    requires Message.WellTyped(msg) && "ts_datetime" in msg && msg["ts_datetime"].Time?
    ensures Checked(st, msg, file, now, p, AsWritten).1 != Ack
  {
    AsWrittenPayloadFails(msg, p);
  }

  /**
   * As written, the handler serialises the parsed message, `datetime`
   * included, so `json.dumps` raises and no line is ever acknowledged.
   */
  lemma AsWrittenNeverAcks(st: Stores, line: string, file: RegistryFile, now: int, p: Platform)
    ensures Step(st, line, file, now, p, AsWritten).1 != Ack
  {
    var parsed := Message.ParseMessage(Raw(line), p);
    if Raw(line) != "" && parsed.Ok? {
      CheckedAsWrittenNeverAcks(st, parsed.msg, file, now, p);
      assert Step(st, line, file, now, p, AsWritten) == Checked(st, parsed.msg, file, now, p, AsWritten);
    }
  }

  /**
   * As written, a well-formed message whose token the registry accepts is
   * answered `ERROR: Internal server error`, whatever its signature: the
   * registry is loaded, and nothing is queued or cached.
   */
  lemma AsWrittenFailsAcceptedToken(st: Stores, line: string, file: RegistryFile, now: int, p: Platform,
                                    m: map<string, Value>, userId: Value)
    requires Raw(line) != "" && p.loads(Raw(line)) == Decoded(Object(m))
    requires "ts_datetime" !in m && Message.Acceptable(m, p)
    requires m["token"].s != "" && m["signature"].s != ""
    requires var reg := AfterLoad(st.reg, file, p);
      CheckToken(View(reg.db), reg.loadedOk, m["token"].s, now, p) == Returned(Some(userId))
    ensures Step(st, line, file, now, p, AsWritten) == (st.(reg := AfterLoad(st.reg, file, p)), Error(InternalError))
  {
    var msg := Message.Stamped(m, p);
    Message.ParsesToStamped(Raw(line), m, p);
    AsWrittenPayloadFails(msg, p);
    assert Truthy(msg["token"]) && Truthy(msg["signature"]);
    var st1 := st.(reg := AfterLoad(st.reg, file, p));
    assert Checked(st, msg, file, now, p, AsWritten) == Signed(st1, msg, userId, file, p, AsWritten);
  }

  /** A registry that holds nothing accepts no token. */
  lemma AcceptedTokenMeansLoaded(reg: RegState, token: string, now: int, p: Platform)
    requires CheckToken(View(reg.db), reg.loadedOk, token, now, p).Returned?
    requires CheckToken(View(reg.db), reg.loadedOk, token, now, p).value.Some?
    ensures reg.db.Some?
  {
  }

  /** Once the registry holds the token's secret, a signature equal to the expected digest is accepted and the message stored. */
  lemma SignedAccepts(st: Stores, msg: map<string, Value>, userId: Value, file: RegistryFile, p: Platform,
                      secret: string, payload: string)
    requires Message.WellTyped(msg) && "ts_datetime" in msg && msg["ts_datetime"].Time?
    requires st.reg.db.Some?
    requires GetSecret(View(st.reg.db), msg["token"].s) == Returned(Str(secret)) && secret != ""
    requires SignedPayload(msg, Intended, p) == Some(payload)
    requires msg["signature"].s == ExpectedSignature(secret, payload, p)
    ensures Signed(st, msg, userId, file, p, Intended) == (Accepted(st, st.reg, msg, userId, p), Ack)
  {
    SignatureAcceptedIffDigest(View(st.reg.db), msg["token"].s, payload, msg["signature"].s, p);
  }

  /** The checks accept a message whose token is valid and whose signature is the digest of the intended payload. */
  lemma CheckedAcceptsSigned(st: Stores, msg: map<string, Value>, file: RegistryFile, now: int, p: Platform,
                             userId: Value, secret: string, payload: string)
    requires Message.WellTyped(msg) && "ts_datetime" in msg && msg["ts_datetime"].Time?
    requires msg["token"].s != "" && msg["signature"].s != ""
    requires var reg := AfterLoad(st.reg, file, p);
      && CheckToken(View(reg.db), reg.loadedOk, msg["token"].s, now, p) == Returned(Some(userId))
      && GetSecret(View(reg.db), msg["token"].s) == Returned(Str(secret)) && secret != ""
    requires SignedPayload(msg, Intended, p) == Some(payload)
    requires msg["signature"].s == ExpectedSignature(secret, payload, p)
    ensures Checked(st, msg, file, now, p, Intended) == (Accepted(st, AfterLoad(st.reg, file, p), msg, userId, p), Ack)
  {
    var reg := AfterLoad(st.reg, file, p);
    AcceptedTokenMeansLoaded(reg, msg["token"].s, now, p);
    var st1 := st.(reg := reg);
    SignedAccepts(st1, msg, userId, file, p, secret, payload);
    assert Truthy(msg["token"]) && Truthy(msg["signature"]);
    assert Checked(st, msg, file, now, p, Intended) == Signed(st1, msg, userId, file, p, Intended);
  }

  /**
   * With the intended payload, a well-formed message signed by the holder
   * of a valid token (the hex HMAC-SHA256 of the decoded object without
   * its signature, under the token's secret) is acknowledged, queued and
   * cached.
   */
  lemma IntendedAcksSignedLine(st: Stores, line: string, file: RegistryFile, now: int, p: Platform,
                               m: map<string, Value>, userId: Value, secret: string)
    requires Raw(line) != "" && p.loads(Raw(line)) == Decoded(Object(m))
    requires "ts_datetime" !in m && (forall k :: k in m ==> IsJson(m[k]))
    requires Message.Acceptable(m, p)
    requires m["token"].s != "" && m["signature"].s != ""
    requires var reg := AfterLoad(st.reg, file, p);
      && CheckToken(View(reg.db), reg.loadedOk, m["token"].s, now, p) == Returned(Some(userId))
      && GetSecret(View(reg.db), m["token"].s) == Returned(Str(secret)) && secret != ""
    requires CanonicalPayload(m - {"signature"}, p).Some?
    requires m["signature"].s == ExpectedSignature(secret, CanonicalPayload(m - {"signature"}, p).value, p)
    ensures Message.ParseMessage(Raw(line), p) == Message.Ok(Message.Stamped(m, p))
    ensures Step(st, line, file, now, p, Intended) == (Accepted(st, AfterLoad(st.reg, file, p), Message.Stamped(m, p), userId, p), Ack)
  {
    var msg := Message.Stamped(m, p);
    Message.ParsesToStamped(Raw(line), m, p);
    IntendedPayloadIsSigned(m, msg, p);
    CheckedAcceptsSigned(st, msg, file, now, p, userId, secret, CanonicalPayload(m - {"signature"}, p).value);
  }

  /** The step of the loop for one connection: the registry file, the clock and the payload rule fixed. */
  function Stepper(file: RegistryFile, clock: nat -> int, p: Platform, rule: PayloadRule): (Stores, string, nat) -> (Stores, Effect) {
    (s: Stores, l: string, i: nat) => Step(s, l, file, clock(i), p, rule)
  }

  lemma StepperApplies(file: RegistryFile, clock: nat -> int, p: Platform, rule: PayloadRule, st: Stores, line: string, i: nat)
    ensures Stepper(file, clock, p, rule)(st, line, i) == Step(st, line, file, clock(i), p, rule)
  {
  }

  lemma StepperNeverCloses(file: RegistryFile, clock: nat -> int, p: Platform, rule: PayloadRule)
    ensures forall s: Stores, l: string, i: nat :: Stepper(file, clock, p, rule)(s, l, i).1 != Closed
  {
    forall s: Stores, l: string, i: nat
      ensures Stepper(file, clock, p, rule)(s, l, i).1 != Closed
    {
      StepperApplies(file, clock, p, rule, s, l, i);
    }
  }

  /** Every exception is caught inside the loop: each line received gets its answer, in order. */
  lemma AnswersEveryLine(st: Stores, lines: seq<string>, file: RegistryFile, clock: nat -> int, p: Platform, rule: PayloadRule)
    ensures var r := Run(st, lines, Stepper(file, clock, p, rule));
      && |r.1| == |lines|
      && forall j :: 0 <= j < |lines| ==>
           r.1[j] == Step(RunFirst(st, lines, j, Stepper(file, clock, p, rule)).0, lines[j], file, clock(j), p, rule).1
  {
    var step := Stepper(file, clock, p, rule);
    StepperNeverCloses(file, clock, p, rule);
    RunAnswersEveryLine(st, lines, |lines|, step);
    forall j | 0 <= j < |lines|
      ensures Run(st, lines, step).1[j] == Step(RunFirst(st, lines, j, step).0, lines[j], file, clock(j), p, rule).1
    {
      StepperApplies(file, clock, p, rule, RunFirst(st, lines, j, step).0, lines[j], j);
    }
  }

  // ---------------------------------------------------------------------
  // The server

  /** The module globals `log_writer` and `metric_cache`, and the session module's registry. */
  class Server {
    const registry: TokenRegistry
    const writer: LogWriter
    const cache: MetricCache
    /** Which payload the signature is checked against. */
    const rule: PayloadRule

    ghost predicate Valid()
      reads this, writer
    {
      writer.Valid()
    }

    function Current(): Stores
      reads this, registry, writer, cache
    {
      Stores(RegState(registry.db, registry.loadedOk), writer.queue, cache.cache)
    }

    constructor(logDir: string, files: map<string, string>, rule: PayloadRule)
      ensures Valid() && fresh(registry) && fresh(writer) && fresh(cache)
      ensures Current() == Stores(RegState(None, false), [], map[]) && this.rule == rule
      ensures !writer.started && writer.files == files
    {
      registry := new TokenRegistry();
      writer := new LogWriter(logDir, files);
      cache := new MetricCache();
      this.rule := rule;
    }

    /** One received line: `file` is the registry file, `now` the clock when the token is checked. */
    method HandleLine(line: string, file: RegistryFile, now: int, p: Platform) returns (e: Effect)
      requires Valid()
      modifies registry, writer, cache
      ensures Valid()
      ensures (Current(), e) == Step(old(Current()), line, file, now, p, rule)
      ensures writer.files == old(writer.files) && writer.started == old(writer.started)
    {
      var raw := Strip(line, Whitespace);
      if raw == "" {
        return Silent;
      }
      var parsed := Message.ParseMessage(raw, p);
      if parsed.Fail? {
        return Error(parsed.error.Text());
      } else if parsed.Uncaught? {
        return Error(InternalError);
      }
      e := HandleMessage(parsed.msg, file, now, p);
    }

    /** The checks and the stores, once the line has parsed. */
    method HandleMessage(msg: map<string, Value>, file: RegistryFile, now: int, p: Platform) returns (e: Effect)
      requires Valid() && Message.WellTyped(msg) && "ts_datetime" in msg && msg["ts_datetime"].Time?
      modifies registry, writer, cache
      ensures Valid()
      ensures (Current(), e) == Checked(old(Current()), msg, file, now, p, rule)
      ensures writer.files == old(writer.files) && writer.started == old(writer.started)
    {
      var token := PyValue.Get(msg, "token");
      var signature := PyValue.Get(msg, "signature");
      if !Truthy(token) || !Truthy(signature) {
        return Error(MissingCredentials);
      }
      var userId := registry.VerifyToken(token.s, file, now, p);
      if userId.Raised? {
        return Error(InternalError);
      } else if userId.value.None? {
        return Error(InvalidToken);
      }
      e := HandleSigned(msg, userId.value.value, file, p);
    }

    /** The signature check, then the log queue and the cache. */
    method HandleSigned(msg: map<string, Value>, userId: Value, file: RegistryFile, p: Platform) returns (e: Effect)
      requires Valid() && Message.WellTyped(msg) && "ts_datetime" in msg && msg["ts_datetime"].Time?
      modifies registry, writer, cache
      ensures Valid()
      ensures (Current(), e) == Signed(old(Current()), msg, userId, file, p, rule)
      ensures writer.files == old(writer.files) && writer.started == old(writer.started)
    {
      ghost var st := Current();
      var payload := SignedPayload(msg, rule, p);
      if payload.None? {
        return Error(InternalError);
      }
      var ok := registry.VerifyHmac(msg["token"].s, payload.value, msg["signature"].s, file, p);
      ghost var checked := st.(reg := AfterLoad(st.reg, file, p));
      assert Current() == checked;
      if ok.Raised? {
        return Error(InternalError);
      } else if !ok.value {
        return Error(InvalidSignature);
      }
      Store(msg, userId, p);
      return Ack;
    }

    /** `log_writer.append(log_entry)`, then `metric_cache.update(uri, value, ts)`. */
    method Store(msg: map<string, Value>, userId: Value, p: Platform)
      requires Valid() && Message.WellTyped(msg) && "ts_datetime" in msg && msg["ts_datetime"].Time?
      modifies writer, cache
      ensures Valid()
      ensures Current() == Accepted(old(Current()), old(Current()).reg, msg, userId, p)
      ensures writer.files == old(writer.files) && writer.started == old(writer.started)
    {
      writer.Append(Entry(msg, userId, p));
      cache.Update(msg["uri"].s, msg["value"], msg["ts_datetime"].dt);
    }

    /**
     * The connection: `log_writer.start()`, then every line received
     * before the client closes, line `i` checked against the clock
     * reading `clock(i)`.
     */
    method Serve(lines: seq<string>, file: RegistryFile, clock: nat -> int, p: Platform) returns (effects: seq<Effect>)
      requires Valid()
      modifies registry, writer, cache
      ensures Valid() && writer.started
      ensures (Current(), effects) == Run(old(Current()), lines, Stepper(file, clock, p, rule))
      ensures |effects| == |lines|
    {
      ghost var start := Current();
      writer.Start();
      assert Current() == start;
      effects := [];
      var i := 0;
      while i < |lines|
        invariant Valid() && writer.started && 0 <= i <= |lines|
        invariant (Current(), effects) == Runs(start, lines, Stepper(file, clock, p, rule))[i]
        invariant |effects| == i && !Stopped(effects)
      {
        var e := Next(start, lines, i, effects, file, clock, p);
        effects := effects + [e];
        i := i + 1;
      }
      RunEnds(start, lines, i, Stepper(file, clock, p, rule), Current(), effects);
    }

    /** Line `i` of the connection: answered, and the loop goes on. */
    method Next(ghost start: Stores, lines: seq<string>, i: nat, ghost effects: seq<Effect>,
                file: RegistryFile, clock: nat -> int, p: Platform) returns (e: Effect)
      requires Valid() && writer.started && i < |lines| && !Stopped(effects)
      requires (Current(), effects) == Runs(start, lines, Stepper(file, clock, p, rule))[i]
      modifies registry, writer, cache
      ensures Valid() && writer.started && e != Closed
      ensures (Current(), effects + [e]) == Runs(start, lines, Stepper(file, clock, p, rule))[i + 1]
    {
      ghost var before := Current();
      e := HandleLine(lines[i], file, clock(i), p);
      StepperApplies(file, clock, p, rule, before, lines[i], i);
      RunAdvance(start, lines, i, Stepper(file, clock, p, rule), before, effects, Current(), e);
    }
  }
}
