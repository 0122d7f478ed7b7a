/**
 * The library code the core calls but does not define, as uninterpreted
 * functions: they are fields of a `Platform` value that every operation
 * depending on them receives as a parameter.
 */
module Runtime {
  import opened Wrappers
  import opened PyValue

  /** The outcome of `json.loads`: a value, or `JSONDecodeError` with its text. */
  datatype Decoded = Decoded(value: Value) | DecodeError(detail: string)

  /** The outcome of `datetime.fromisoformat`: a datetime, or `ValueError` with its text. */
  datatype IsoResult = Parsed(dt: DateTime) | Invalid(detail: string)

  datatype Platform = Platform(
    /** `json.loads` (RFC 8259). */
    loads: string -> Decoded,
    /** `datetime.fromisoformat` (ISO 8601). */
    fromIsoFormat: string -> IsoResult,
    /** `datetime.isoformat()`. */
    isoFormat: DateTime -> string,
    /** How `json.dumps` renders a float. */
    floatRepr: real -> string,
    /** How `json.dumps` renders a string literal; the flag is `ensure_ascii`. */
    quote: (string, bool) -> string,
    /** The HMAC-SHA256 digest (RFC 2104) of a message under a key, both UTF-8 encoded. */
    hmacSha256: (string, string) -> seq<bv8>,
    /** `base64.urlsafe_b64encode(...).decode()` (section 5 of RFC 4648). */
    b64url: seq<bv8> -> string,
    /** `datetime.strptime(s, "%Y%m%d")`, `None` on `ValueError`. */
    strptimeDate: string -> Option<Date>,
    /** `str.isalnum` on a character outside ASCII. */
    unicodeAlnum: char -> bool
  )

  /** `json.loads` only ever produces JSON values (never a `datetime`). */
  ghost predicate LoadsJsonOnly(p: Platform) {
    forall s :: p.loads(s).Decoded? ==> IsJson(p.loads(s).value)
  }

  /** The base64url alphabet of section 5 of RFC 4648, with `=` padding. */
  predicate IsB64UrlChar(c: char) {
    ('A' <= c <= 'Z') || ('a' <= c <= 'z') || ('0' <= c <= '9') || c == '-' || c == '_' || c == '='
  }

  /** `b64url` keeps to its alphabet. */
  ghost predicate B64UrlAlphabet(p: Platform) {
    forall d :: forall i :: 0 <= i < |p.b64url(d)| ==> IsB64UrlChar(p.b64url(d)[i])
  }

  /** An HMAC-SHA256 digest is 32 bytes long (section 5 of RFC 2104, with SHA-256's output size). */
  ghost predicate Sha256Digests(p: Platform) {
    forall k, m :: |p.hmacSha256(k, m)| == 32
  }
}
