/**
 * The older `parse_message` of server/core/utils/message.py: only `type`,
 * `uri`, `ts` and `value` are required, `value` must be a number, `ts` must
 * parse, and the decoded dictionary is returned as it is.
 */
module LegacyMessage {
  import opened Wrappers
  import opened Strings
  import opened PyValue
  import opened Runtime
  import Message

  const Required: seq<string> := ["type", "uri", "ts", "value"]

  /**
   * Returned, `MessageParseError` with its text, or an exception the parser
   * does not catch (`TypeError` from `in` or `[]`, `AttributeError` from
   * `replace` on a timestamp that is not a string).
   */
  datatype Parsed = Ok(msg: map<string, Value>) | Fail(text: string) | Uncaught

  const MissingText := "Missing required fields"
  const NotNumericText := "Value must be numeric"

  /** `all(k in msg for k in keys)`: stops at the first absent key; `None` when `in` raises. */
  function AllPresent(v: Value, keys: seq<string>): (r: Option<bool>)
    ensures v.Object? ==> r == Some(forall k :: k in keys ==> k in v.fields)
    ensures keys != [] ==> ((v.Object? || v.List? || v.Str?) <==> r.Some?)
  {
    if keys == [] then Some(true)
    else
      match Contains(keys[0], v)
      case None => None
      case Some(present) =>
        if !present then Some(false)
        else
          var rest := AllPresent(v, keys[1..]);
          assert forall k :: k in keys <==> k == keys[0] || k in keys[1..];
          rest
  }

  function InvalidText(detail: string): string {
    "Invalid message: " + detail
  }

  function ParseMessage(raw: string, p: Platform): (r: Parsed)
    ensures p.loads(raw).DecodeError? ==> r == Fail(InvalidText(p.loads(raw).detail))
    ensures r.Ok? ==> p.loads(raw) == Decoded(Object(r.msg))
    ensures r.Ok? ==> Acceptable(r.msg, p)
  {
    match p.loads(raw)
    case DecodeError(detail) => Fail(InvalidText(detail))
    case Decoded(v) =>
      match AllPresent(v, Required)
      case None => Uncaught
      case Some(present) =>
        if !present then Fail(MissingText)
        else if !v.Object? then Uncaught
        else
          assert "value" in Required && "ts" in Required;
          if !IsNumber(v.fields["value"]) then Fail(NotNumericText)
          else if !v.fields["ts"].Str? then Uncaught
          else
            match p.fromIsoFormat(Message.IsoText(v.fields["ts"].s))
            case Invalid(detail) => Fail(InvalidText(detail))
            case Parsed(_) => Ok(v.fields)
  }

  /** The four fields present, a numeric value and a parseable string timestamp. */
  predicate Acceptable(m: map<string, Value>, p: Platform) {
    && "type" in m && "uri" in m && "ts" in m && "value" in m
    && IsNumber(m["value"])
    && m["ts"].Str?
    && p.fromIsoFormat(Message.IsoText(m["ts"].s)).Parsed?
  }

  /**
   * The parser returns exactly the decoded objects that are `Acceptable`,
   * unchanged; `token` and `signature` play no part.
   */
  lemma LegacyAcceptsExactly(raw: string, p: Platform)
    ensures ParseMessage(raw, p).Ok? <==>
              p.loads(raw).Decoded? && p.loads(raw).value.Object? && Acceptable(p.loads(raw).value.fields, p)
  {
    if p.loads(raw).Decoded? && p.loads(raw).value.Object? && Acceptable(p.loads(raw).value.fields, p) {
      var m := p.loads(raw).value.fields;
      assert forall k :: k in Required ==> k in m;
    }
  }

  /** A missing field is reported before the value's type is looked at. */
  lemma MissingReportedFirst(raw: string, p: Platform, key: string)
    requires p.loads(raw).Decoded? && p.loads(raw).value.Object?
    requires key in Required && key !in p.loads(raw).value.fields
    ensures ParseMessage(raw, p) == Fail(MissingText)
  {
  }

  /** With all four fields present, a non-numeric value is reported before the timestamp is parsed. */
  lemma NumericCheckedBeforeTimestamp(raw: string, p: Platform)
    requires p.loads(raw).Decoded? && p.loads(raw).value.Object?
    requires forall k :: k in Required ==> k in p.loads(raw).value.fields
    requires !IsNumber(p.loads(raw).value.fields["value"])
    ensures ParseMessage(raw, p) == Fail(NotNumericText)
  {
  }

  /** A timestamp that is not a string makes `replace` raise, and the parser does not catch it. */
  lemma NonStringTimestampEscapes(raw: string, p: Platform)
    requires p.loads(raw).Decoded? && p.loads(raw).value.Object?
    requires forall k :: k in Required ==> k in p.loads(raw).value.fields
    requires IsNumber(p.loads(raw).value.fields["value"])
    requires !p.loads(raw).value.fields["ts"].Str?
    ensures ParseMessage(raw, p) == Uncaught
  {
  }
}
