/**
 * The sending side of apps/agents/main.py: how the agent signs a metric
 * (`sign_message`), the message and the line it writes for it, and the
 * loop of `send_collected_metrics` over the metrics collected in one
 * interval. The connection is not modelled: what happens after a line is
 * written (an answer, a `ConnectionError`, another exception) is given per
 * metric, and so is whether the shutdown event is set when the loop
 * reaches it.
 */
module Agent {
  import opened Wrappers
  import opened Strings
  import opened PyValue
  import opened Runtime
  import opened Json
  import opened Session
  import opened Handler
  import Message
  import AppsServer

  /** `AGENT_USER_ID`, `AGENT_TOKEN` and `AGENT_SECRET`. */
  datatype Config = Config(userId: string, token: string, secret: string)

  /** The agent refuses to start unless all three are set. */
  predicate Configured(cfg: Config) {
    cfg.userId != "" && cfg.token != "" && cfg.secret != ""
  }

  /** A collected metric: the URI suffix and the value the collector returned. */
  type Collected = (string, Value)

  /** `sign_message`: the hex HMAC-SHA256 of the payload under the secret, the digest the server recomputes. */
  function SignMessage(secret: string, payload: string, p: Platform): (r: string)
    ensures r == ExpectedSignature(secret, payload, p)
    ensures Sha256Digests(p) ==> |r| == 64
  {
    Hex(p.hmacSha256(secret, payload))
  }

  const AgentPrefix := "/agent/"

  /** `f"/agent/{AGENT_USER_ID}/{uri_suffix}"`. */
  function FullUri(userId: string, suffix: string): (r: string)
    ensures StartsWith(r, AgentPrefix) && !StartsWith(r, Message.SensitivePrefix)
    ensures |r| == |AgentPrefix| + |userId| + 1 + |suffix|
    ensures r[|AgentPrefix|..|AgentPrefix| + |userId|] == userId && r[|AgentPrefix| + |userId|] == '/'
    ensures r[|AgentPrefix| + |userId| + 1..] == suffix
  {
    var r := AgentPrefix + userId + "/" + suffix;
    assert r[1] == 'a' != Message.SensitivePrefix[1];
    r
  }

  /** `message_to_sign`: the five fields the signature covers. */
  function MessageToSign(cfg: Config, suffix: string, value: Value, ts: string): (r: map<string, Value>)
    ensures r.Keys == {"type", "uri", "ts", "value", "token"}
    ensures r["type"] == Str("metric") && r["uri"] == Str(FullUri(cfg.userId, suffix))
    ensures r["ts"] == Str(ts) && r["value"] == value && r["token"] == Str(cfg.token)
  {
    map["type" := Str("metric"), "uri" := Str(FullUri(cfg.userId, suffix)), "ts" := Str(ts),
        "value" := value, "token" := Str(cfg.token)]
  }

  /** The payload of a number can always be serialised. */
  lemma PayloadDefined(cfg: Config, suffix: string, value: Value, ts: string, p: Platform)
    requires IsNumber(value)
    ensures CanonicalPayload(MessageToSign(cfg, suffix, value, ts), p).Some?
  {
    CanonicalPayloadDefinedIff(MessageToSign(cfg, suffix, value, ts), p);
  }

  /** `payload_str`: the message to sign with sorted keys and compact separators. */
  function Payload(cfg: Config, suffix: string, value: Value, ts: string, p: Platform): (r: string)
    requires IsNumber(value)
    ensures Some(r) == CanonicalPayload(MessageToSign(cfg, suffix, value, ts), p)
  {
    PayloadDefined(cfg, suffix, value, ts, p);
    CanonicalPayload(MessageToSign(cfg, suffix, value, ts), p).value
  }

  /** `signature`: the agent's secret over the payload. */
  function Signature(cfg: Config, suffix: string, value: Value, ts: string, p: Platform): string
    requires IsNumber(value)
  {
    SignMessage(cfg.secret, Payload(cfg, suffix, value, ts, p), p)
  }

  /** `message_to_send`: the signed fields and the signature over them. */
  function MessageToSend(cfg: Config, suffix: string, value: Value, ts: string, p: Platform): (r: map<string, Value>)
    requires IsNumber(value)
    ensures forall k :: k in r ==> IsJson(r[k])
  {
    MessageToSign(cfg, suffix, value, ts)["signature" := Str(Signature(cfg, suffix, value, ts, p))]
  }

  /** The message sent is the message signed plus its signature. */
  lemma SendExtendsSigned(cfg: Config, suffix: string, value: Value, ts: string, p: Platform)
    requires IsNumber(value)
    ensures var r := MessageToSend(cfg, suffix, value, ts, p);
      && r.Keys == MessageToSign(cfg, suffix, value, ts).Keys + {"signature"}
      && r - {"signature"} == MessageToSign(cfg, suffix, value, ts)
      && r["signature"] == Str(Signature(cfg, suffix, value, ts, p))
  {
    var m := MessageToSign(cfg, suffix, value, ts);
    var r := MessageToSend(cfg, suffix, value, ts, p);
    assert "signature" !in m;
    assert r - {"signature"} == m;
  }

  /** The default style of `json.dumps`: `", "` and `": "` separators, ASCII escapes. */
  const WireStyle := Style(false, true)

  /** A dictionary of serialisable values serialises, in braces. */
  lemma ObjectDumps(fields: map<string, Value>, st: Style, p: Platform)
    requires forall k :: k in fields ==> IsJson(fields[k])
    ensures var text := Dumps(Object(fields), st, p);
      text.Some? && |text.value| >= 2 && text.value[0] == '{' && text.value[|text.value| - 1] == '}'
  {
    DumpsDefinedIffJson(Object(fields), st, p);
    ObjectBraces(fields, st, p);
  }

  /** `json.dumps(message)` with the default style: the text of the line without its newline. */
  function WireText(message: map<string, Value>, p: Platform): (r: string)
    requires forall k :: k in message ==> IsJson(message[k])
    ensures Some(r) == Dumps(Object(message), WireStyle, p)
    ensures |r| >= 2 && r[0] == '{' && r[|r| - 1] == '}'
  {
    ObjectDumps(message, WireStyle, p);
    Dumps(Object(message), WireStyle, p).value
  }

  /** The bytes the agent writes for a numeric metric: `(json.dumps(message_to_send) + "\n").encode()`. */
  function LineFor(cfg: Config, metric: Collected, ts: string, p: Platform): string
    requires IsNumber(metric.1)
  {
    WireText(MessageToSend(cfg, metric.0, metric.1, ts, p), p) + "\n"
  }

  /** The server's `data.decode().strip()` of the line is the JSON text the agent serialised. */
  lemma LineReadsBack(cfg: Config, metric: Collected, ts: string, p: Platform)
    requires IsNumber(metric.1)
    ensures Raw(LineFor(cfg, metric, ts, p)) == WireText(MessageToSend(cfg, metric.0, metric.1, ts, p), p)
  {
    RawOfObjectLine(WireText(MessageToSend(cfg, metric.0, metric.1, ts, p), p));
  }

  // ---------------------------------------------------------------------
  // The line at the server

  /**
   * The message a configured agent sends for a number, with a time
   * `fromisoformat` accepts, is one `parse_message` accepts, carrying the
   * agent's token and a non-empty signature that is the server's expected
   * digest of the message without its signature under the agent's secret.
   */
  lemma SendIsSigned(cfg: Config, metric: Collected, ts: string, p: Platform)
    requires Configured(cfg) && IsNumber(metric.1) && Sha256Digests(p)
    requires p.fromIsoFormat(Message.IsoText(ts)).Parsed?
    ensures var m := MessageToSend(cfg, metric.0, metric.1, ts, p);
      && "ts_datetime" !in m && Message.Acceptable(m, p)
      && m["token"] == Str(cfg.token) && m["signature"].s != ""
      && CanonicalPayload(m - {"signature"}, p).Some?
      && m["signature"].s == ExpectedSignature(cfg.secret, CanonicalPayload(m - {"signature"}, p).value, p)
  {
    var m := MessageToSend(cfg, metric.0, metric.1, ts, p);
    var signed := MessageToSign(cfg, metric.0, metric.1, ts);
    SendExtendsSigned(cfg, metric.0, metric.1, ts, p);
    assert m["uri"] == signed["uri"] && m["value"] == metric.1 && m["ts"] == Str(ts);
    assert |m["signature"].s| == 64;
  }

  /**
   * A line from a configured agent, read back by `json.loads` as the
   * message it serialised, with a time `fromisoformat` accepts and a token
   * the registry knows under the agent's secret, is acknowledged, queued
   * and cached by the server of apps/server/main.py once its payload is the
   * one the agent signed.
   */
  lemma IntendedAcksAgentLine(cfg: Config, metric: Collected, ts: string, st: Stores, file: RegistryFile,
                              now: int, userId: Value, p: Platform)
    requires Configured(cfg) && IsNumber(metric.1) && Sha256Digests(p)
    requires var m := MessageToSend(cfg, metric.0, metric.1, ts, p); p.loads(WireText(m, p)) == Decoded(Object(m))
    requires p.fromIsoFormat(Message.IsoText(ts)).Parsed?
    requires var reg := AfterLoad(st.reg, file, p);
      && CheckToken(View(reg.db), reg.loadedOk, cfg.token, now, p) == Returned(Some(userId))
      && GetSecret(View(reg.db), cfg.token) == Returned(Str(cfg.secret))
    ensures var m := MessageToSend(cfg, metric.0, metric.1, ts, p);
      && Message.Acceptable(m, p)
      && AppsServer.Step(st, LineFor(cfg, metric, ts, p), file, now, p, Intended)
           == (AppsServer.Accepted(st, AfterLoad(st.reg, file, p), Message.Stamped(m, p), userId, p), Ack)
  {
    var m := MessageToSend(cfg, metric.0, metric.1, ts, p);
    SendIsSigned(cfg, metric, ts, p);
    LineReadsBack(cfg, metric, ts, p);
    AppsServer.IntendedAcksSignedLine(st, LineFor(cfg, metric, ts, p), file, now, p, m, userId, cfg.secret);
  }

  /**
   * As written, the same line, token accepted, is answered
   * `ERROR: Internal server error`: the server cannot serialise the
   * payload it checks the signature against.
   */
  lemma AsWrittenRejectsAgentLine(cfg: Config, metric: Collected, ts: string, st: Stores, file: RegistryFile,
                                  now: int, userId: Value, p: Platform)
    requires Configured(cfg) && IsNumber(metric.1) && Sha256Digests(p)
    requires var m := MessageToSend(cfg, metric.0, metric.1, ts, p); p.loads(WireText(m, p)) == Decoded(Object(m))
    requires p.fromIsoFormat(Message.IsoText(ts)).Parsed?
    requires var reg := AfterLoad(st.reg, file, p);
      CheckToken(View(reg.db), reg.loadedOk, cfg.token, now, p) == Returned(Some(userId))
    ensures AppsServer.Step(st, LineFor(cfg, metric, ts, p), file, now, p, AsWritten)
              == (st.(reg := AfterLoad(st.reg, file, p)), Error(InternalError))
  {
    var m := MessageToSend(cfg, metric.0, metric.1, ts, p);
    SendIsSigned(cfg, metric, ts, p);
    LineReadsBack(cfg, metric, ts, p);
    AppsServer.AsWrittenFailsAcceptedToken(st, LineFor(cfg, metric, ts, p), file, now, p, m, userId);
  }

  // ---------------------------------------------------------------------
  // The send loop

  /** What follows the write of a line: an answer read back, a `ConnectionError`, or another exception. */
  datatype Reply = Answered(response: string) | ConnectionLost | Failed

  /**
   * The metrics the loop writes a line for, from metric `i` on: it stops
   * when the shutdown event is set, skips a value that is not a number,
   * and after a `ConnectionError` writes nothing more; any other exception
   * only costs the metric it happened on.
   */
  function SendingFrom(metrics: seq<Collected>, shutdown: nat -> bool, replies: nat -> Reply, i: nat): (r: seq<Collected>)
    requires i <= |metrics|
    ensures |r| <= |metrics| - i
    ensures forall k :: 0 <= k < |r| ==> IsNumber(r[k].1)
    decreases |metrics| - i
  {
    if i == |metrics| || shutdown(i) then []
    else if !IsNumber(metrics[i].1) then SendingFrom(metrics, shutdown, replies, i + 1)
    else [metrics[i]] + (if replies(i).ConnectionLost? then [] else SendingFrom(metrics, shutdown, replies, i + 1))
  }

  /** The metrics of one interval that get a line. */
  function Sending(metrics: seq<Collected>, shutdown: nat -> bool, replies: nat -> Reply): (r: seq<Collected>)
    ensures |r| <= |metrics|
    ensures forall k :: 0 <= k < |r| ==> IsNumber(r[k].1)
  {
    SendingFrom(metrics, shutdown, replies, 0)
  }

  /** The line of each metric, in order. */
  function Lines(cfg: Config, metrics: seq<Collected>, ts: string, p: Platform): (r: seq<string>)
    requires forall k :: 0 <= k < |metrics| ==> IsNumber(metrics[k].1)
    ensures |r| == |metrics|
    ensures forall k :: 0 <= k < |metrics| ==> r[k] == LineFor(cfg, metrics[k], ts, p)
  {
    seq(|metrics|, k requires 0 <= k < |metrics| => LineFor(cfg, metrics[k], ts, p))
  }

  /** The lines of two lists are the lines of each, one after the other. */
  lemma LinesConcat(cfg: Config, a: seq<Collected>, b: seq<Collected>, ts: string, p: Platform)
    requires forall k :: 0 <= k < |a| ==> IsNumber(a[k].1)
    requires forall k :: 0 <= k < |b| ==> IsNumber(b[k].1)
    ensures Lines(cfg, a + b, ts, p) == Lines(cfg, a, ts, p) + Lines(cfg, b, ts, p)
  {
    var whole, left, right := Lines(cfg, a + b, ts, p), Lines(cfg, a, ts, p), Lines(cfg, b, ts, p);
    forall k | 0 <= k < |a + b| ensures whole[k] == (left + right)[k] {
      if k < |a| {
        assert (a + b)[k] == a[k];
      } else {
        assert (a + b)[k] == b[k - |a|];
      }
    }
  }

  /**
   * The body of the loop for a number: the full URI, the message to sign,
   * its payload and signature, the message to send, and the line written.
   */
  method Render(cfg: Config, metric: Collected, ts: string, p: Platform) returns (line: string)
    requires IsNumber(metric.1)
    ensures [line] == Lines(cfg, [metric], ts, p)
  {
    var (suffix, value) := metric;
    var fullUri := AgentPrefix + cfg.userId + "/" + suffix;
    var messageToSign := map["type" := Str("metric"), "uri" := Str(fullUri), "ts" := Str(ts),
                             "value" := value, "token" := Str(cfg.token)];
    assert messageToSign == MessageToSign(cfg, suffix, value, ts);
    var payload := Payload(cfg, suffix, value, ts, p);
    var signature := SignMessage(cfg.secret, payload, p);
    var messageToSend := messageToSign["signature" := Str(signature)];
    line := WireText(messageToSend, p) + "\n";
  }

  /** The `for uri_suffix, value in metrics_collected_this_run` loop: the lines written, in order. */
  method SendBatch(cfg: Config, metrics: seq<Collected>, ts: string, shutdown: nat -> bool, replies: nat -> Reply,
                   p: Platform) returns (sent: seq<string>)
    ensures sent == Lines(cfg, Sending(metrics, shutdown, replies), ts, p)
  {
    sent := [];
    ghost var written: seq<Collected> := [];
    var i := 0;
    while i < |metrics|
      invariant 0 <= i <= |metrics|
      invariant forall k :: 0 <= k < |written| ==> IsNumber(written[k].1)
      invariant sent == Lines(cfg, written, ts, p)
      invariant written + SendingFrom(metrics, shutdown, replies, i) == Sending(metrics, shutdown, replies)
    {
      if shutdown(i) {
        assert written + [] == written == Sending(metrics, shutdown, replies);
        return;
      }
      if !IsNumber(metrics[i].1) {
        i := i + 1;
        continue;
      }
      var line := Render(cfg, metrics[i], ts, p);
      LinesConcat(cfg, written, [metrics[i]], ts, p);
      Associative(written, [metrics[i]], SendingFrom(metrics, shutdown, replies, i + 1));
      sent := sent + [line];
      written := written + [metrics[i]];
      if replies(i).ConnectionLost? {
        assert written + [] == written == Sending(metrics, shutdown, replies);
        return;
      }
      i := i + 1;
    }
    assert written + [] == written == Sending(metrics, shutdown, replies);
  }

  /** The metrics whose value is a number, in order. */
  function Numeric(metrics: seq<Collected>): (r: seq<Collected>)
    ensures |r| <= |metrics|
    ensures forall k :: 0 <= k < |r| ==> IsNumber(r[k].1)
  {
    if metrics == [] then []
    else (if IsNumber(metrics[0].1) then [metrics[0]] else []) + Numeric(metrics[1..])
  }

  /** With no shutdown and no lost connection, every numeric metric is sent, in collection order. */
  lemma {:induction false} SendsEveryNumber(metrics: seq<Collected>, shutdown: nat -> bool, replies: nat -> Reply, i: nat)
    requires i <= |metrics|
    requires forall k :: i <= k < |metrics| ==> !shutdown(k) && !replies(k).ConnectionLost?
    ensures SendingFrom(metrics, shutdown, replies, i) == Numeric(metrics[i..])
    decreases |metrics| - i
  {
    if i < |metrics| {
      SendsEveryNumber(metrics, shutdown, replies, i + 1);
      assert metrics[i..][1..] == metrics[i + 1..];
    }
  }

  /** What is sent is exactly the numeric metrics of some stretch of the collection starting at `i`. */
  lemma {:induction false} SendsNumericPrefix(metrics: seq<Collected>, shutdown: nat -> bool, replies: nat -> Reply, i: nat)
    requires i <= |metrics|
    ensures exists n :: i <= n <= |metrics| && SendingFrom(metrics, shutdown, replies, i) == Numeric(metrics[i..n])
    decreases |metrics| - i
  {
    if i == |metrics| || shutdown(i) {
      assert SendingFrom(metrics, shutdown, replies, i) == Numeric(metrics[i..i]);
    } else if IsNumber(metrics[i].1) && replies(i).ConnectionLost? {
      assert metrics[i..i + 1][1..] == [];
      assert SendingFrom(metrics, shutdown, replies, i) == Numeric(metrics[i..i + 1]);
    } else {
      SendsNumericPrefix(metrics, shutdown, replies, i + 1);
      var n :| i + 1 <= n <= |metrics| && SendingFrom(metrics, shutdown, replies, i + 1) == Numeric(metrics[i + 1..n]);
      assert metrics[i..n][1..] == metrics[i + 1..n];
      assert SendingFrom(metrics, shutdown, replies, i) == Numeric(metrics[i..n]);
    }
  }

  /** Two lists of metrics that the loop treats alike from `n` on, and that agree before `n`, are sent alike. */
  lemma {:induction false} SameFrom(metrics: seq<Collected>, shutdown: nat -> bool, replies: nat -> Reply, m: nat, i: nat, n: nat)
    requires i <= n <= m <= |metrics|
    requires SendingFrom(metrics, shutdown, replies, n) == SendingFrom(metrics[..m], shutdown, replies, n)
    ensures SendingFrom(metrics, shutdown, replies, i) == SendingFrom(metrics[..m], shutdown, replies, i)
    decreases n - i
  {
    if i < n {
      SameFrom(metrics, shutdown, replies, m, i + 1, n);
      assert metrics[..m][i] == metrics[i];
    }
  }

  /** Nothing is written for the metric the shutdown is seen at, nor for any after it. */
  lemma StopsAtShutdown(metrics: seq<Collected>, shutdown: nat -> bool, replies: nat -> Reply, n: nat)
    requires n < |metrics| && shutdown(n)
    ensures Sending(metrics, shutdown, replies) == Sending(metrics[..n], shutdown, replies)
  {
    SameFrom(metrics, shutdown, replies, n, 0, n);
  }

  /** After a `ConnectionError` on a written line, no further line is written. */
  lemma StopsAtConnectionLoss(metrics: seq<Collected>, shutdown: nat -> bool, replies: nat -> Reply, n: nat)
    requires n < |metrics| && !shutdown(n) && IsNumber(metrics[n].1) && replies(n).ConnectionLost?
    ensures Sending(metrics, shutdown, replies) == Sending(metrics[..n + 1], shutdown, replies)
  {
    assert metrics[..n + 1][n] == metrics[n];
    SameFrom(metrics, shutdown, replies, n + 1, 0, n);
  }
}
