/**
 * `parse_message` of server/utils/message.py: decode one line, check the six
 * required fields in a fixed order, parse the timestamp, apply the
 * sensitive-URI rule, and attach the parsed timestamp as `ts_datetime`.
 */
module Message {
  import opened Wrappers
  import opened Strings
  import opened PyValue
  import opened Runtime

  /** The class (or tuple of classes) a required field must be an instance of. */
  datatype Expected = StrType | NumberType {
    /** How Python prints the class info inside the error text. */
    function ClassInfo(): string {
      if StrType? then "<class 'str'>" else "(<class 'int'>, <class 'float'>)"
    }

    /** `isinstance(v, classinfo)`. */
    predicate Admits(v: Value) {
      if StrType? then v.Str? else IsNumber(v)
    }
  }

  /** The required fields, in the order they are checked. */
  const RequiredFields: seq<(string, Expected)> := [
    ("type", StrType), ("uri", StrType), ("ts", StrType),
    ("value", NumberType), ("token", StrType), ("signature", StrType)
  ]

  const SensitivePrefix := "/sensitive/"

  /** The reasons `MessageParseError` is raised. */
  datatype ParseError =
    | InvalidJson(detail: string)
    | MissingField(field: string)
    | InvalidType(field: string, expected: Expected, got: string)
    | InvalidTimestamp(ts: string, detail: string)
    | SensitiveNotInt(uri: string, got: string)
  {
    /** `str(e)`, the text the handlers send after `ERROR: `. */
    function Text(): string {
      match this
      case InvalidJson(detail) => "Invalid JSON message: " + detail
      case MissingField(field) => "Missing required field: '" + field + "'"
      case InvalidType(field, expected, got) =>
        "Invalid type for field '" + field + "': Expected a type from " + expected.ClassInfo() + ", got " + got
      case InvalidTimestamp(ts, detail) => "Invalid timestamp format for 'ts' field: " + ts + ". Error: " + detail
      case SensitiveNotInt(uri, got) => "Value for sensitive URI '" + uri + "' must be an integer, got " + got + "."
    }
  }

  /**
   * What `parse_message` does: return the message, raise `MessageParseError`,
   * or let another exception escape (`TypeError` from `in` or `[]` on a
   * decoded value that is not a dictionary).
   */
  datatype Parsed = Ok(msg: map<string, Value>) | Fail(error: ParseError) | Uncaught

  datatype FieldCheck = Passed | Failed(error: ParseError) | TypeErrorRaised

  /** Each of `fields` is present in `m` with an admitted type. */
  predicate FieldsWellTyped(m: map<string, Value>, fields: seq<(string, Expected)>) {
    forall i :: 0 <= i < |fields| ==> fields[i].0 in m && fields[i].1.Admits(m[fields[i].0])
  }

  /** The six required fields, written out: present and of the expected type. */
  predicate WellTyped(m: map<string, Value>) {
    && "type" in m && m["type"].Str?
    && "uri" in m && m["uri"].Str?
    && "ts" in m && m["ts"].Str?
    && "value" in m && IsNumber(m["value"])
    && "token" in m && m["token"].Str?
    && "signature" in m && m["signature"].Str?
  }

  lemma WellTypedIff(m: map<string, Value>)
    ensures FieldsWellTyped(m, RequiredFields) <==> WellTyped(m)
  {
    if WellTyped(m) {
      forall i | 0 <= i < |RequiredFields|
        ensures RequiredFields[i].0 in m && RequiredFields[i].1.Admits(m[RequiredFields[i].0])
      {
      }
    }
    if FieldsWellTyped(m, RequiredFields) {
      assert RequiredFields[0].0 in m && RequiredFields[0].1.Admits(m[RequiredFields[0].0]);
      assert RequiredFields[1].0 in m && RequiredFields[1].1.Admits(m[RequiredFields[1].0]);
      assert RequiredFields[2].0 in m && RequiredFields[2].1.Admits(m[RequiredFields[2].0]);
      assert RequiredFields[3].0 in m && RequiredFields[3].1.Admits(m[RequiredFields[3].0]);
      assert RequiredFields[4].0 in m && RequiredFields[4].1.Admits(m[RequiredFields[4].0]);
      assert RequiredFields[5].0 in m && RequiredFields[5].1.Admits(m[RequiredFields[5].0]);
    }
  }

  /** The loop over the required fields: it stops at the first field that is missing or mistyped. */
  function CheckFields(v: Value, fields: seq<(string, Expected)>): (r: FieldCheck)
    ensures r.Passed? && fields != [] ==> v.Object?
    ensures v.Object? ==> (r.Passed? <==> FieldsWellTyped(v.fields, fields))
    decreases |fields|
  {
    if fields == [] then Passed
    else
      var name := fields[0].0;
      match Contains(name, v)
      case None => TypeErrorRaised
      case Some(present) =>
        if !present then Failed(MissingField(name))
        else if !v.Object? then TypeErrorRaised
        else if !fields[0].1.Admits(v.fields[name]) then Failed(InvalidType(name, fields[0].1, TypeName(v.fields[name])))
        else
          var rest := CheckFields(v, fields[1..]);
          assert FieldsWellTyped(v.fields, fields) <==> FieldsWellTyped(v.fields, fields[1..]) by {
            if FieldsWellTyped(v.fields, fields[1..]) {
              forall i | 0 <= i < |fields|
                ensures fields[i].0 in v.fields && fields[i].1.Admits(v.fields[fields[i].0])
              {
                if i > 0 {
                  assert fields[i] == fields[1..][i - 1];
                }
              }
            }
          }
          rest
  }

  /** `msg` is `before` with `ts_datetime` set to an aware datetime and nothing else changed. */
  predicate AddsTimestamp(before: map<string, Value>, after: map<string, Value>) {
    && after.Keys == before.Keys + {"ts_datetime"}
    && "ts_datetime" in after
    && (forall k :: k in before && k != "ts_datetime" ==> after[k] == before[k])
    && after["ts_datetime"].Time?
    && after["ts_datetime"].dt.Aware()
  }

  /** The text `fromisoformat` receives: every `Z` replaced by `+00:00`. */
  function IsoText(ts: string): string {
    ReplaceChar(ts, 'Z', "+00:00")
  }

  function ParseMessage(raw: string, p: Platform): (r: Parsed)
    ensures p.loads(raw).DecodeError? ==> r == Fail(InvalidJson(p.loads(raw).detail))
    ensures r.Ok? ==> p.loads(raw).Decoded? && p.loads(raw).value.Object?
    ensures r.Ok? ==> WellTyped(r.msg)
    ensures r.Ok? ==> AddsTimestamp(p.loads(raw).value.fields, r.msg)
    ensures r.Ok? ==> p.fromIsoFormat(IsoText(r.msg["ts"].s)).Parsed?
                      && r.msg["ts_datetime"] == Time(p.fromIsoFormat(IsoText(r.msg["ts"].s)).dt.AsUtc())
    ensures r.Ok? ==> !(StartsWith(r.msg["uri"].s, SensitivePrefix) && !IsInt(r.msg["value"]))
  {
    match p.loads(raw)
    case DecodeError(detail) => Fail(InvalidJson(detail))
    case Decoded(v) =>
      match CheckFields(v, RequiredFields)
      case TypeErrorRaised => Uncaught
      case Failed(e) => Fail(e)
      case Passed =>
        var msg := v.fields;
        WellTypedIff(msg);
        var ts := msg["ts"].s;
        match p.fromIsoFormat(IsoText(ts))
        case Invalid(detail) => Fail(InvalidTimestamp(ts, detail))
        case Parsed(dt) =>
          var uri := msg["uri"].s;
          var value := msg["value"];
          if StartsWith(uri, SensitivePrefix) && !IsInt(value) then Fail(SensitiveNotInt(uri, TypeName(value)))
          else
            Ok(msg["ts_datetime" := Time(dt.AsUtc())])
  }

  /** The conditions under which `parse_message` returns: the six fields well typed, a parseable timestamp, the sensitive-URI rule. */
  predicate Acceptable(m: map<string, Value>, p: Platform) {
    && WellTyped(m)
    && p.fromIsoFormat(IsoText(m["ts"].s)).Parsed?
    && !(StartsWith(m["uri"].s, SensitivePrefix) && !IsInt(m["value"]))
  }

  /** `parse_message` returns exactly for objects that meet `Acceptable`. */
  lemma ParseAcceptsExactly(raw: string, p: Platform)
    ensures ParseMessage(raw, p).Ok? <==>
              p.loads(raw).Decoded? && p.loads(raw).value.Object? && Acceptable(p.loads(raw).value.fields, p)
  {
    if p.loads(raw).Decoded? && p.loads(raw).value.Object? && Acceptable(p.loads(raw).value.fields, p) {
      WellTypedIff(p.loads(raw).value.fields);
    }
  }

  /** What `parse_message` returns for an acceptable object: the object with its parsed, UTC-normalised time attached. */
  function Stamped(m: map<string, Value>, p: Platform): (r: map<string, Value>)
    requires Acceptable(m, p)
    ensures WellTyped(r) && "ts_datetime" in r && r["ts_datetime"].Time?
  {
    m["ts_datetime" := Time(p.fromIsoFormat(IsoText(m["ts"].s)).dt.AsUtc())]
  }

  /** An acceptable decoded object comes back with `ts_datetime` added and nothing else changed. */
  lemma ParsesToStamped(raw: string, m: map<string, Value>, p: Platform)
    requires p.loads(raw) == Decoded(Object(m)) && Acceptable(m, p)
    ensures ParseMessage(raw, p) == Ok(Stamped(m, p))
  {
    ParseAcceptsExactly(raw, p);
  }

  /** The fields before `i` pass, so the check reaches field `i`. */
  lemma {:induction false} CheckFieldsReaches(m: map<string, Value>, fields: seq<(string, Expected)>, i: nat)
    requires i < |fields|
    requires FieldsWellTyped(m, fields[..i])
    ensures CheckFields(Object(m), fields) == CheckFields(Object(m), fields[i..])
    decreases i
  {
    if i > 0 {
      assert fields[0] == fields[..i][0];
      var tail := fields[1..][..i - 1];
      assert FieldsWellTyped(m, tail) by {
        forall j | 0 <= j < |tail|
          ensures tail[j].0 in m && tail[j].1.Admits(m[tail[j].0])
        {
          assert tail[j] == fields[..i][j + 1];
        }
      }
      CheckFieldsReaches(m, fields[1..], i - 1);
      assert fields[1..][i - 1..] == fields[i..];
    }
  }

  /**
   * Fields are checked in the order type, uri, ts, value, token, signature:
   * when the fields before `i` are present and well typed and field `i` is
   * missing, that field is the one reported.
   */
  lemma FirstMissingFieldReported(raw: string, p: Platform, i: nat)
    requires i < |RequiredFields|
    requires p.loads(raw).Decoded? && p.loads(raw).value.Object?
    requires FieldsWellTyped(p.loads(raw).value.fields, RequiredFields[..i])
    requires RequiredFields[i].0 !in p.loads(raw).value.fields
    ensures ParseMessage(raw, p) == Fail(MissingField(RequiredFields[i].0))
  {
    CheckFieldsReaches(p.loads(raw).value.fields, RequiredFields, i);
  }

  /**
   * A present field of the wrong type is reported with its name and its
   * Python type, when every field before it passed.
   */
  lemma FirstMistypedFieldReported(raw: string, p: Platform, i: nat)
    requires i < |RequiredFields|
    requires p.loads(raw).Decoded? && p.loads(raw).value.Object?
    requires FieldsWellTyped(p.loads(raw).value.fields, RequiredFields[..i])
    requires RequiredFields[i].0 in p.loads(raw).value.fields
    requires !RequiredFields[i].1.Admits(p.loads(raw).value.fields[RequiredFields[i].0])
    ensures ParseMessage(raw, p) ==
              Fail(InvalidType(RequiredFields[i].0, RequiredFields[i].1, TypeName(p.loads(raw).value.fields[RequiredFields[i].0])))
  {
    CheckFieldsReaches(p.loads(raw).value.fields, RequiredFields, i);
  }

  /** A timestamp `fromisoformat` rejects is reported with the original `ts` text. */
  lemma BadTimestampReported(raw: string, p: Platform)
    requires p.loads(raw).Decoded? && p.loads(raw).value.Object?
    requires WellTyped(p.loads(raw).value.fields)
    requires p.fromIsoFormat(IsoText(p.loads(raw).value.fields["ts"].s)).Invalid?
    ensures ParseMessage(raw, p) ==
              Fail(InvalidTimestamp(p.loads(raw).value.fields["ts"].s,
                                    p.fromIsoFormat(IsoText(p.loads(raw).value.fields["ts"].s)).detail))
  {
    WellTypedIff(p.loads(raw).value.fields);
  }

  /** Under `/sensitive/`, a float value is refused even though it passed the number check. */
  lemma SensitiveFloatRejected(raw: string, p: Platform)
    requires p.loads(raw).Decoded? && p.loads(raw).value.Object?
    requires WellTyped(p.loads(raw).value.fields)
    requires p.fromIsoFormat(IsoText(p.loads(raw).value.fields["ts"].s)).Parsed?
    requires StartsWith(p.loads(raw).value.fields["uri"].s, SensitivePrefix)
    requires p.loads(raw).value.fields["value"].Float?
    ensures ParseMessage(raw, p) == Fail(SensitiveNotInt(p.loads(raw).value.fields["uri"].s, "float"))
  {
    WellTypedIff(p.loads(raw).value.fields);
  }

  /**
   * A decoded list or string is not a dictionary: when it does not contain
   * `"type"` the first field is reported missing, otherwise indexing it
   * raises `TypeError`; any other non-object raises on the `in` test.
   */
  lemma NonObjectRejected(raw: string, p: Platform)
    requires p.loads(raw).Decoded? && !p.loads(raw).value.Object?
    ensures ParseMessage(raw, p) ==
              (if Contains("type", p.loads(raw).value) == Some(false) then Fail(MissingField("type")) else Uncaught)
  {
  }
}
