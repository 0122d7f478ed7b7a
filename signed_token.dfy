/**
 * The self-contained tokens of core/auth/session.py: `user:exp:sig`, where
 * `exp` is a Unix time in whole seconds and `sig` is the base64url encoding
 * (section 5 of RFC 4648) of HMAC-SHA256 (RFC 2104) over `user:exp` under a
 * fixed server key.
 */
module SignedToken {
  import opened Wrappers
  import opened Strings
  import opened Runtime

  const SecretKey := "supersecret"

  /** `int(x)` for a float: truncation toward zero. */
  function Trunc(x: real): (r: int)
    ensures x >= 0.0 ==> r as real <= x < r as real + 1.0
    ensures x < 0.0 ==> r as real - 1.0 < x <= r as real
  {
    if x >= 0.0 then x.Floor else -((-x).Floor)
  }

  /** The signed part of a token. */
  function Payload(userId: string, exp: int): string {
    userId + ":" + IntToString(exp)
  }

  /** The signature the server expects on a payload. */
  function Signature(payload: string, p: Platform): string {
    p.b64url(p.hmacSha256(SecretKey, payload))
  }

  /**
   * `generate_token(user_id, expire_seconds)` at time `now` (the value of
   * `time.time()`): the token splits back at its last `:` into the payload
   * and that payload's signature, and the payload of a colon-free user id
   * splits into the user id and the expiry `int(now) + expire_seconds`.
   */
  function GenerateToken(userId: string, expireSeconds: int, now: real, p: Platform): (token: string)
    ensures B64UrlAlphabet(p) ==>
              var exp := Trunc(now) + expireSeconds;
              RSplitOnce(token, ':') == Some((Payload(userId, exp), Signature(Payload(userId, exp), p)))
    ensures ':' !in userId && B64UrlAlphabet(p) ==>
              && Split(RSplitOnce(token, ':').value.0, ':') == [userId, IntToString(Trunc(now) + expireSeconds)]
              && ParseInt(IntToString(Trunc(now) + expireSeconds)) == Some(Trunc(now) + expireSeconds)
  {
    var exp := Trunc(now) + expireSeconds;
    var payload := Payload(userId, exp);
    var token := payload + ":" + Signature(payload, p);
    assert B64UrlAlphabet(p) ==> RSplitOnce(token, ':') == Some((payload, Signature(payload, p))) by {
      if B64UrlAlphabet(p) {
        SignedSplits(payload, p);
      }
    }
    assert ':' !in userId ==> Split(payload, ':') == [userId, IntToString(exp)] by {
      if ':' !in userId {
        PayloadSplits(userId, exp);
      }
    }
    ParseIntRoundTrip(exp);
    token
  }

  /**
   * `verify_token(token)` at time `now`: the user id, or `None` for every
   * failure (each raised exception is caught and turned into `None`).
   */
  function VerifyToken(token: string, now: real, p: Platform): (r: Option<string>)
    ensures r.Some? ==> ':' !in r.value
    ensures r.Some? <==>
              && RSplitOnce(token, ':').Some?
              && var (payload, sig) := RSplitOnce(token, ':').value;
                 && |Split(payload, ':')| == 2
                 && ParseInt(Split(payload, ':')[1]).Some?
                 && now <= ParseInt(Split(payload, ':')[1]).value as real
                 && IsAscii(sig)
                 && sig == Signature(payload, p)
    ensures r.Some? ==>
              var (payload, sig) := RSplitOnce(token, ':').value;
              && r.value == Split(payload, ':')[0]
              && payload == r.value + ":" + Split(payload, ':')[1]
  {
    match RSplitOnce(token, ':')
    case None => None
    case Some((payload, sig)) =>
      var parts := Split(payload, ':');
      if |parts| != 2 then None
      else
        match ParseInt(parts[1])
        case None => None
        case Some(exp) =>
          if now > exp as real then None
          else if !IsAscii(sig) then None
          else if Signature(payload, p) == sig then
            assert payload == parts[0] + ":" + parts[1] by {
              SplitJoin(payload, ':');
            }
            Some(parts[0])
          else None
  }

  /** A signature is base64url text: ASCII, without a colon. */
  lemma SignatureText(payload: string, p: Platform)
    requires B64UrlAlphabet(p)
    ensures ':' !in Signature(payload, p) && IsAscii(Signature(payload, p))
  {
    var sig := Signature(payload, p);
    forall i | 0 <= i < |sig|
      ensures sig[i] != ':' && sig[i] < '\U{0080}'
    {
      assert IsB64UrlChar(sig[i]);
    }
  }

  /** The rendering of an integer holds no colon. */
  lemma NoColonInInt(n: int)
    ensures ':' !in IntToString(n)
  {
  }

  /** A signed payload splits back at its last `:` into the payload and the signature. */
  lemma SignedSplits(payload: string, p: Platform)
    requires B64UrlAlphabet(p)
    ensures RSplitOnce(payload + ":" + Signature(payload, p), ':') == Some((payload, Signature(payload, p)))
  {
    var sig := Signature(payload, p);
    SignatureText(payload, p);
    RSplitOnceLast(payload, sig, ':');
    assert payload + ":" + sig == payload + [':'] + sig;
  }

  /** The payload of a colon-free user id splits into the user id and the rendered expiry. */
  lemma PayloadSplits(userId: string, exp: int)
    requires ':' !in userId
    ensures Split(Payload(userId, exp), ':') == [userId, IntToString(exp)]
  {
    assert Payload(userId, exp) == userId + [':'] + IntToString(exp);
    NoColonInInt(exp);
    SplitConcat(userId, IntToString(exp), ':');
    SplitNoSeparator(userId, ':');
    SplitNoSeparator(IntToString(exp), ':');
  }

  /** The generated token splits back into its payload and signature, and the payload into user and expiry. */
  lemma TokenShape(userId: string, exp: int, p: Platform)
    requires ':' !in userId
    requires B64UrlAlphabet(p)
    ensures var payload := Payload(userId, exp);
            && RSplitOnce(payload + ":" + Signature(payload, p), ':') == Some((payload, Signature(payload, p)))
            && Split(payload, ':') == [userId, IntToString(exp)]
  {
    SignedSplits(Payload(userId, exp), p);
    PayloadSplits(userId, exp);
  }

  /** Round trip: a token generated for a colon-free user id verifies to that user id up to and including its expiry second. */
  lemma RoundTrip(userId: string, expireSeconds: int, issued: real, now: real, p: Platform)
    requires ':' !in userId
    requires B64UrlAlphabet(p)
    requires now <= (Trunc(issued) + expireSeconds) as real
    ensures VerifyToken(GenerateToken(userId, expireSeconds, issued, p), now, p) == Some(userId)
  {
    var exp := Trunc(issued) + expireSeconds;
    var payload := Payload(userId, exp);
    TokenShape(userId, exp, p);
    ParseIntRoundTrip(exp);
    var sig := Signature(payload, p);
    SignatureText(payload, p);
    var token := GenerateToken(userId, expireSeconds, issued, p);
    assert token == payload + ":" + sig;
    assert RSplitOnce(token, ':') == Some((payload, sig));
    assert Split(payload, ':') == [userId, IntToString(exp)];
    assert ParseInt(IntToString(exp)) == Some(exp);
  }

  /** A generated token is refused once `now` is past its expiry, before the signature is looked at. */
  lemma ExpiredRejected(userId: string, expireSeconds: int, issued: real, now: real, p: Platform)
    requires ':' !in userId
    requires B64UrlAlphabet(p)
    requires now > (Trunc(issued) + expireSeconds) as real
    ensures VerifyToken(GenerateToken(userId, expireSeconds, issued, p), now, p) == None
  {
    var exp := Trunc(issued) + expireSeconds;
    TokenShape(userId, exp, p);
    ParseIntRoundTrip(exp);
  }

  /** A user id containing `:` never verifies: the payload splits into more than two pieces. */
  lemma ColonUserNeverVerifies(userId: string, expireSeconds: int, issued: real, now: real, p: Platform)
    requires ':' in userId
    requires B64UrlAlphabet(p)
    ensures VerifyToken(GenerateToken(userId, expireSeconds, issued, p), now, p) == None
  {
    var exp := Trunc(issued) + expireSeconds;
    var payload := Payload(userId, exp);
    var sig := Signature(payload, p);
    SignatureText(payload, p);
    RSplitOnceLast(payload, sig, ':');
    assert payload + ":" + sig == payload + [':'] + sig;
    assert payload == userId + [':'] + IntToString(exp);
    SplitConcat(userId, IntToString(exp), ':');
    SplitAtLeastTwo(userId, ':');
  }

  /** A token without any `:` is refused. */
  lemma NoColonRejected(token: string, now: real, p: Platform)
    requires ':' !in token
    ensures VerifyToken(token, now, p) == None
  {
  }
}
