/**
 * Token authentication of apps/server/auth/session.py: a registry of tokens
 * read once from a JSON file, a lookup with an expiry window, and the
 * HMAC-SHA256 signature check (RFC 2104) with a hex digest.
 */
module Session {
  import opened Wrappers
  import opened Strings
  import opened PyValue
  import opened Runtime

  /** What reading the registry file gives: no file, an I/O or decoding failure, or its text. */
  datatype RegistryFile = Missing | Unreadable | Content(text: string)

  /**
   * The values `load_token_registry` leaves in `_token_db` and
   * `_token_db_loaded_successfully` when it reads the file. A file holding
   * JSON `null` leaves `_token_db` as `None`, so the next call reads again.
   */
  function Loaded(file: RegistryFile, p: Platform): (r: (Option<Value>, bool))
    ensures r.1 <==> file.Content? && p.loads(file.text).Decoded?
    ensures r.0.None? <==> file.Content? && p.loads(file.text) == Decoded(Null)
    ensures !r.1 ==> r.0 == Some(Object(map[]))
  {
    match file
    case Missing => (Some(Object(map[])), false)
    case Unreadable => (Some(Object(map[])), false)
    case Content(text) =>
      match p.loads(text)
      case DecodeError(_) => (Some(Object(map[])), false)
      case Decoded(v) => (if v == Null then None else Some(v), true)
  }

  /** `_token_db if _token_db is not None else {}`. */
  function View(db: Option<Value>): Value {
    if db.Some? then db.value else Object(map[])
  }

  /** The module globals of the registry. */
  class TokenRegistry {
    var db: Option<Value>
    var loadedOk: bool

    constructor()
      ensures db == None && !loadedOk
    {
      db := None;
      loadedOk := false;
    }

    /**
     * `load_token_registry`: the file is read only while nothing is
     * cached; once `_token_db` holds a value, later calls return it and
     * change nothing, whatever the file now says.
     */
    method Load(file: RegistryFile, p: Platform) returns (view: Value)
      modifies this
      ensures old(db).Some? ==> db == old(db) && loadedOk == old(loadedOk)
      ensures old(db).None? ==> (db, loadedOk) == Loaded(file, p)
      ensures view == View(db)
    {
      if db.None? {
        var loaded := Loaded(file, p);
        db := loaded.0;
        loadedOk := loaded.1;
      }
      view := View(db);
    }

    /** `verify_token`, which loads the registry first. */
    method VerifyToken(token: string, file: RegistryFile, now: int, p: Platform) returns (r: Outcome<Option<Value>>)
      modifies this
      ensures old(db).Some? ==> db == old(db) && loadedOk == old(loadedOk)
      ensures old(db).None? ==> (db, loadedOk) == Loaded(file, p)
      ensures r == CheckToken(View(db), loadedOk, token, now, p)
    {
      var view := Load(file, p);
      r := CheckToken(view, loadedOk, token, now, p);
    }

    /** `verify_hmac_signature`, which loads the registry (through `get_secret_for_token`) first. */
    method VerifyHmac(token: string, payload: string, signature: string, file: RegistryFile, p: Platform)
      returns (r: Outcome<bool>)
      modifies this
      ensures old(db).Some? ==> db == old(db) && loadedOk == old(loadedOk)
      ensures old(db).None? ==> (db, loadedOk) == Loaded(file, p)
      ensures r == CheckHmac(View(db), token, payload, signature, p)
    {
      var view := Load(file, p);
      r := CheckHmac(view, token, payload, signature, p);
    }
  }

  /**
   * How a registry time is read: a trailing `Z` becomes `+00:00` and the
   * result is used as it is; any other text is parsed and, when naive,
   * set to UTC.
   */
  function RegistryTime(s: string, p: Platform): (r: IsoResult)
    ensures !EndsWith(s, "Z") && r.Parsed? ==> r.dt.Aware()
    ensures !EndsWith(s, "Z") && r.Parsed? && p.fromIsoFormat(s).Parsed? && !p.fromIsoFormat(s).dt.Aware() ==> r.dt.Instant() == p.fromIsoFormat(s).dt.wall
    ensures r.Invalid? <==> p.fromIsoFormat(if EndsWith(s, "Z") then s[..|s| - 1] + "+00:00" else s).Invalid?
  {
    if EndsWith(s, "Z") then p.fromIsoFormat(s[..|s| - 1] + "+00:00")
    else
      match p.fromIsoFormat(s)
      case Invalid(detail) => Invalid(detail)
      case Parsed(dt) => Parsed(dt.AsUtc())
  }

  /**
   * The optional `issued_at` check, run once the expiry has passed: an
   * absent or falsy `issued_at` and an unparseable one let the token
   * through; a later one rejects it; a non-string raises
   * `AttributeError` and a naive parse result makes the comparison raise
   * `TypeError`.
   */
  function CheckIssued(issued: Value, now: int, p: Platform): Outcome<bool> {
    if !Truthy(issued) then Returned(true)
    else if !issued.Str? then Raised
    else
      match RegistryTime(issued.s, p)
      case Invalid(_) => Returned(true)
      case Parsed(at) =>
        if !at.Aware() then Raised
        else Returned(!(now < at.Instant()))
  }

  /**
   * `verify_token` on the registry `db` with the flag
   * `_token_db_loaded_successfully`: the user id, `None`, or an exception
   * the function does not catch.
   */
  function CheckToken(db: Value, loadedOk: bool, token: string, now: int, p: Platform): (r: Outcome<Option<Value>>)
    ensures r.Returned? && r.value.Some? ==>
              db.Object? && token in db.fields && db.fields[token].Object?
              && r.value.value == Get(db.fields[token].fields, "user_id") && Truthy(r.value.value)
  {
    if !loadedOk && !Truthy(db) then Returned(None)
    else if !db.Object? then Raised
    else
      var entry := Get(db.fields, token);
      if !Truthy(entry) then Returned(None)
      else if !entry.Object? then Raised
      else
        var userId := Get(entry.fields, "user_id");
        var expires := Get(entry.fields, "expires_at");
        if !Truthy(userId) || !Truthy(expires) then Returned(None)
        else if !expires.Str? then Raised
        else
          match RegistryTime(expires.s, p)
          case Invalid(_) => Returned(None)
          case Parsed(expiry) =>
            if !expiry.Aware() then Raised
            else if now > expiry.Instant() then Returned(None)
            else
              match CheckIssued(Get(entry.fields, "issued_at"), now, p)
              case Raised => Raised
              case Returned(ok) => if ok then Returned(Some(userId)) else Returned(None)
  }

  /** `get_secret_for_token`: the entry's `secret` (possibly `None`), or `None` when there is no entry. */
  function GetSecret(db: Value, token: string): (r: Outcome<Value>)
    ensures r.Returned? && Truthy(r.value) ==>
              db.Object? && token in db.fields && db.fields[token].Object?
              && "secret" in db.fields[token].fields && r.value == db.fields[token].fields["secret"]
  {
    if !db.Object? then Raised
    else
      var entry := Get(db.fields, token);
      if !Truthy(entry) then Returned(Null)
      else if !entry.Object? then Raised
      else Returned(Get(entry.fields, "secret"))
  }

  /** The digest the client must send: hex HMAC-SHA256 of the payload under the secret. */
  function ExpectedSignature(secret: string, payload: string, p: Platform): (r: string)
    ensures IsAscii(r)
  {
    Hex(p.hmacSha256(secret, payload))
  }

  /**
   * `verify_hmac_signature`: `False` without a secret; `False` when the
   * secret is not a string (`encode` raises and the handler catches it);
   * otherwise `compare_digest`, which refuses (with a caught `TypeError`)
   * a non-ASCII string.
   */
  function CheckHmac(db: Value, token: string, payload: string, signature: string, p: Platform): (r: Outcome<bool>)
  {
    match GetSecret(db, token)
    case Raised => Raised
    case Returned(secret) =>
      if !Truthy(secret) then Returned(false)
      else if !secret.Str? then Returned(false)
      else
        var expected := ExpectedSignature(secret.s, payload, p);
        if !IsAscii(signature) then Returned(false)
        else Returned(expected == signature)
  }

  // ---------------------------------------------------------------------
  // Properties of the lookup

  /** A token the registry does not hold is refused. */
  lemma UnknownTokenRejected(db: Value, loadedOk: bool, token: string, now: int, p: Platform)
    requires db.Object? && token !in db.fields
    ensures CheckToken(db, loadedOk, token, now, p) == Returned(None)
  {
  }

  /** An entry without a (truthy) `user_id` or `expires_at` is refused. */
  lemma IncompleteEntryRejected(db: Value, loadedOk: bool, token: string, now: int, p: Platform)
    requires db.Object? && token in db.fields && db.fields[token].Object? && db.fields[token].fields != map[]
    requires !Truthy(Get(db.fields[token].fields, "user_id")) || !Truthy(Get(db.fields[token].fields, "expires_at"))
    ensures CheckToken(db, loadedOk, token, now, p) == Returned(None)
  {
  }

  /** The entry holds a user id and an `expires_at` string that reads as the aware time `expiry`. */
  predicate ExpiresAt(entry: map<string, Value>, expiry: DateTime, p: Platform) {
    && Truthy(Get(entry, "user_id"))
    && Get(entry, "expires_at").Str? && Get(entry, "expires_at").s != ""
    && RegistryTime(Get(entry, "expires_at").s, p) == Parsed(expiry)
    && expiry.Aware()
  }

  /**
   * The expiry window is closed: with no `issued_at`, the token is accepted
   * exactly when `now` is not after the expiry, so at `now == expires_at`
   * it is still valid.
   */
  lemma ExpiryInclusive(db: Value, loadedOk: bool, token: string, now: int, expiry: DateTime, p: Platform)
    requires db.Object? && token in db.fields && db.fields[token].Object?
    requires ExpiresAt(db.fields[token].fields, expiry, p)
    requires "issued_at" !in db.fields[token].fields
    ensures (CheckToken(db, loadedOk, token, now, p) == Returned(Some(Get(db.fields[token].fields, "user_id"))))
              <==> now <= expiry.Instant()
    ensures now > expiry.Instant() ==> CheckToken(db, loadedOk, token, now, p) == Returned(None)
  {
    var entry := db.fields[token].fields;
    assert Truthy(db) by {
      assert token in db.fields;
    }
    assert Truthy(Object(entry)) by {
      assert "expires_at" in entry;
    }
  }

  /**
   * An `issued_at` that parses to a time after `now` rejects a token that
   * has not expired; one that does not parse is ignored, so the result is
   * what it would be with no `issued_at` at all.
   */
  lemma IssuedAtWindow(db: Value, loadedOk: bool, token: string, now: int, expiry: DateTime, p: Platform)
    requires db.Object? && token in db.fields && db.fields[token].Object?
    requires ExpiresAt(db.fields[token].fields, expiry, p)
    requires now <= expiry.Instant()
    requires Get(db.fields[token].fields, "issued_at").Str? && Get(db.fields[token].fields, "issued_at").s != ""
    ensures var issued := RegistryTime(Get(db.fields[token].fields, "issued_at").s, p);
            && (issued.Parsed? && issued.dt.Aware() && now < issued.dt.Instant() ==>
                  CheckToken(db, loadedOk, token, now, p) == Returned(None))
            && (issued.Invalid? ==>
                  CheckToken(db, loadedOk, token, now, p) == Returned(Some(Get(db.fields[token].fields, "user_id"))))
  {
    var entry := db.fields[token].fields;
    assert Truthy(db) by {
      assert token in db.fields;
    }
    assert Truthy(Object(entry)) by {
      assert "expires_at" in entry;
    }
  }

  /** An `expires_at` that does not parse rejects the token. */
  lemma MalformedExpiryRejected(db: Value, loadedOk: bool, token: string, now: int, p: Platform)
    requires db.Object? && token in db.fields && db.fields[token].Object?
    requires Truthy(Get(db.fields[token].fields, "user_id"))
    requires Get(db.fields[token].fields, "expires_at").Str? && Get(db.fields[token].fields, "expires_at").s != ""
    requires RegistryTime(Get(db.fields[token].fields, "expires_at").s, p).Invalid?
    ensures CheckToken(db, loadedOk, token, now, p) == Returned(None)
  {
    var entry := db.fields[token].fields;
    assert Truthy(db) by {
      assert token in db.fields;
    }
    assert Truthy(Object(entry)) by {
      assert "expires_at" in entry;
    }
  }

  /** A naive `expires_at` without a trailing `Z` counts as UTC: its wall-clock reading is the expiry instant. */
  lemma NaiveExpiryIsUtc(s: string, p: Platform)
    requires !EndsWith(s, "Z")
    requires p.fromIsoFormat(s).Parsed? && !p.fromIsoFormat(s).dt.Aware()
    ensures RegistryTime(s, p).Parsed? && RegistryTime(s, p).dt.Aware()
    ensures RegistryTime(s, p).dt.Instant() == p.fromIsoFormat(s).dt.wall
  {
  }

  // ---------------------------------------------------------------------
  // Properties of the memoised registry

  /** Once a registry value is cached, loading again leaves both globals and the view unchanged. */
  method LoadIsMemoised(reg: TokenRegistry, first: RegistryFile, second: RegistryFile, p: Platform)
    returns (a: Value, b: Value)
    modifies reg
    requires !(first.Content? && p.loads(first.text) == Decoded(Null))
    ensures a == b
    ensures a == View(reg.db)
    ensures (reg.db, reg.loadedOk) ==
              (if old(reg.db).Some? then (old(reg.db), old(reg.loadedOk)) else Loaded(first, p))
  {
    a := reg.Load(first, p);
    b := reg.Load(second, p);
  }

  // ---------------------------------------------------------------------
  // Properties of the signature check

  /** Without a truthy secret the answer is `False`, whatever the signature. */
  lemma NoSecretNoSignature(db: Value, token: string, payload: string, signature: string, p: Platform)
    requires GetSecret(db, token).Returned? && !Truthy(GetSecret(db, token).value)
    ensures CheckHmac(db, token, payload, signature, p) == Returned(false)
  {
  }

  /** With a string secret, the signature is accepted exactly when it is the hex HMAC-SHA256 of the payload. */
  lemma SignatureAcceptedIffDigest(db: Value, token: string, payload: string, signature: string, p: Platform)
    requires GetSecret(db, token).Returned? && GetSecret(db, token).value.Str? && GetSecret(db, token).value.s != ""
    ensures CheckHmac(db, token, payload, signature, p) ==
              Returned(signature == ExpectedSignature(GetSecret(db, token).value.s, payload, p))
  {
    var expected := ExpectedSignature(GetSecret(db, token).value.s, payload, p);
    if signature == expected {
      assert IsAscii(signature);
    }
  }
}
