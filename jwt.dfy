/**
 * The JWT service: a secret read once at construction, signing with a default
 * lifetime of 24 hours or with none, and a verification that sorts every token
 * into valid, expired (the `exp` claim of section 4.1.4 of RFC 7519) or invalid.
 *
 * The jsonwebtoken library is seen from outside. A token is the compact
 * serialisation of a payload and the key that signed it; `Jwt` supplies the
 * serialisation and its parser, and signatures are ideal: a token verifies
 * under a key only if it was signed with that key.
 */
module JwtService {
  import opened Common
  import opened Json

  type Payload = map<string, Json>

  datatype SignedToken = SignedToken(payload: Payload, key: string)

  datatype Jwt = Jwt(encode: SignedToken -> string, decode: string -> Option<SignedToken>)

  /** What the model assumes of the library: parsing a serialised token gives it back. */
  ghost predicate RoundTrips(j: Jwt) {
    forall t :: j.decode(j.encode(t)) == Some(t)
  }

  /** `'24h'`, in seconds. */
  const DefaultExpiresIn: nat := 86400

  const SecretNotFound: string := "JWT secret key not found"
  const SignError: string := "Error when signing token: "
  const InvalidToken: string := "Invalid token"

  /** `jwt.sign` validates the registered date claims first: `iat`, `exp` and `nbf`, when present, are numbers. */
  predicate NumericDates(payload: Payload) {
    && ("iat" in payload ==> payload["iat"].JNumber?)
    && ("exp" in payload ==> payload["exp"].JNumber?)
    && ("nbf" in payload ==> payload["nbf"].JNumber?)
  }

  /** The signing timestamp, `payload.iat || now`: a caller's `iat` unless it is absent or zero. */
  function IssuedAt(payload: Payload, now: int): int {
    if "iat" in payload && payload["iat"].JNumber? && payload["iat"].n != 0 then payload["iat"].n else now
  }

  /** The payload that `jwt.sign` serialises: `iat` set to the signing timestamp, `exp` counted from it when a lifetime is given. */
  function Claims(payload: Payload, now: int, expiresIn: Option<nat>): (r: Payload)
    ensures "iat" in r && r["iat"] == JNumber(IssuedAt(payload, now))
    ensures "iat" in payload && payload["iat"].JNumber? && payload["iat"].n != 0 ==> r["iat"] == payload["iat"]
    ensures "iat" !in payload ==> r["iat"] == JNumber(now)
    ensures expiresIn.Some? ==> "exp" in r && r["exp"] == JNumber(r["iat"].n + expiresIn.value)
  {
    var stamped := payload["iat" := JNumber(IssuedAt(payload, now))];
    if expiresIn.Some? then stamped["exp" := JNumber(IssuedAt(payload, now) + expiresIn.value)] else stamped
  }

  /**
   * `jwt.sign`: a date claim that is not a number is refused first, then a
   * lifetime for a payload that already carries `exp`.
   */
  function Sign(j: Jwt, key: string, payload: Payload, now: int, expiresIn: Option<nat>): (r: Result<string>)
    ensures r.Err? <==> !NumericDates(payload) || (expiresIn.Some? && "exp" in payload)
    ensures r.Ok? ==> r.value == j.encode(SignedToken(Claims(payload, now, expiresIn), key))
  {
    if "iat" in payload && !payload["iat"].JNumber? then Err("\"iat\" should be a number of seconds")
    else if "exp" in payload && !payload["exp"].JNumber? then Err("\"exp\" should be a number of seconds")
    else if "nbf" in payload && !payload["nbf"].JNumber? then Err("\"nbf\" should be a number of seconds")
    else if expiresIn.Some? && "exp" in payload then Err("Bad \"options.expiresIn\" option the payload already has an \"exp\" property.")
    else Ok(j.encode(SignedToken(Claims(payload, now, expiresIn), key)))
  }

  /** How `jwt.verify` ends: the decoded payload, `TokenExpiredError`, `NotBeforeError` or another `JsonWebTokenError`. */
  datatype LibraryOutcome = Decoded(payload: Payload) | TokenExpiredError | NotBeforeError | JsonWebTokenError

  /** A payload is in force at `now` when `nbf`, if any, is a number not after `now` and `exp`, if any, a number after it. */
  predicate InForce(payload: Payload, now: int) {
    && ("nbf" in payload ==> payload["nbf"].JNumber? && payload["nbf"].n <= now)
    && ("exp" in payload ==> payload["exp"].JNumber? && now < payload["exp"].n)
  }

  /** `jwt.verify`: the signature is checked first, then `nbf` (not yet active), then `exp` (expired once the clock reaches it). */
  function LibraryVerify(j: Jwt, key: string, token: string, now: int): (r: LibraryOutcome)
    ensures r.Decoded? <==> j.decode(token).Some? && j.decode(token).value.key == key && InForce(j.decode(token).value.payload, now)
    ensures r.Decoded? ==> r.payload == j.decode(token).value.payload
    ensures r.TokenExpiredError? ==> j.decode(token).Some? && var p := j.decode(token).value.payload;
      "exp" in p && p["exp"].JNumber? && now >= p["exp"].n
  {
    match j.decode(token)
    case None => JsonWebTokenError
    case Some(t) =>
      if t.key != key then JsonWebTokenError
      else if "nbf" in t.payload && !t.payload["nbf"].JNumber? then JsonWebTokenError
      else if "nbf" in t.payload && t.payload["nbf"].n > now then NotBeforeError
      else if "exp" in t.payload && !t.payload["exp"].JNumber? then JsonWebTokenError
      else if "exp" in t.payload && now >= t.payload["exp"].n then TokenExpiredError
      else Decoded(t.payload)
  }

  /** The object `verifyToken` returns. */
  datatype Verification = Verification(decoded: Option<Payload>, tokenExpired: bool)

  class JwtService {
    const jwt: Jwt
    const secretKey: string

    ghost predicate Valid() {
      secretKey != ""
    }

    constructor (jwt: Jwt, secretKey: string)
      requires secretKey != ""
      ensures Valid() && this.jwt == jwt && this.secretKey == secretKey
    {
      this.jwt := jwt;
      this.secretKey := secretKey;
    }

    /** The constructor: fails when `JWT_SECRET` is unset or empty, otherwise keeps it as the secret. */
    static method Create(jwt: Jwt, env: Option<string>) returns (r: Result<JwtService>)
      ensures env == None || env == Some("") <==> r.Err?
      ensures r.Err? ==> r.message == SecretNotFound
      ensures r.Ok? ==> r.value.Valid() && r.value.jwt == jwt && Some(r.value.secretKey) == env
    {
      if env == None || env.value == "" {
        return Err(SecretNotFound);
      }
      var s := new JwtService(jwt, env.value);
      return Ok(s);
    }

    /** `signToken`: a lifetime of `expiresIn` seconds, 24 hours unless given; a library failure is re-raised. */
    function SignToken(payload: Payload, now: int, expiresIn: nat := DefaultExpiresIn): (r: Result<string>)
      ensures r.Err? <==> !NumericDates(payload) || "exp" in payload
      ensures r.Err? ==> r.message == SignError
      ensures r.Ok? ==> r.value == jwt.encode(SignedToken(Claims(payload, now, Some(expiresIn)), secretKey))
    {
      match Sign(jwt, secretKey, payload, now, Some(expiresIn))
      case Err(_) => Err(SignError)
      case Ok(token) => Ok(token)
    }

    /** `signTokenNoExpiration`: no lifetime option at all, so the token carries no `exp`. */
    function SignTokenNoExpiration(payload: Payload, now: int): (r: Result<string>)
      ensures r.Err? <==> !NumericDates(payload)
      ensures r.Err? ==> r.message == SignError
      ensures r.Ok? ==> r.value == jwt.encode(SignedToken(Claims(payload, now, None), secretKey))
    {
      match Sign(jwt, secretKey, payload, now, None)
      case Err(_) => Err(SignError)
      case Ok(token) => Ok(token)
    }

    /**
     * `verifyToken`: a good token gives its payload and `tokenExpired = false`;
     * an expired one gives no payload and `tokenExpired = true`; any other
     * failure, a token not yet active included, raises `Error('Invalid token')`.
     */
    method VerifyToken(token: string, now: int) returns (r: Result<Verification>)
      ensures LibraryVerify(jwt, secretKey, token, now).Decoded? ==>
        r == Ok(Verification(Some(LibraryVerify(jwt, secretKey, token, now).payload), false))
      ensures LibraryVerify(jwt, secretKey, token, now).TokenExpiredError? ==> r == Ok(Verification(None, true))
      ensures LibraryVerify(jwt, secretKey, token, now).NotBeforeError? ==> r == Err(InvalidToken)
      ensures LibraryVerify(jwt, secretKey, token, now).JsonWebTokenError? ==> r == Err(InvalidToken)
    {
      var decoded: Option<Payload> := None;
      var tokenExpired := false;
      match LibraryVerify(jwt, secretKey, token, now) {
        case Decoded(p) =>
          decoded := Some(p);
        case TokenExpiredError =>
          tokenExpired := true;
        case NotBeforeError =>
          return Err(InvalidToken);
        case JsonWebTokenError =>
          return Err(InvalidToken);
      }
      return Ok(Verification(decoded, tokenExpired));
    }
  }

  /**
   * A token signed with a lifetime is refused until its `nbf`, then verifies
   * with every claim until the lifetime, counted from the signing timestamp,
   * runs out, and is expired from then on.
   */
  lemma SignedTokenLifetime(j: Jwt, key: string, payload: Payload, now: int, expiresIn: nat, later: int)
    requires RoundTrips(j)
    ensures Sign(j, key, payload, now, Some(expiresIn)).Ok? <==> NumericDates(payload) && "exp" !in payload
    ensures Sign(j, key, payload, now, Some(expiresIn)).Ok? ==>
      var token := Sign(j, key, payload, now, Some(expiresIn)).value;
      var expiry := IssuedAt(payload, now) + expiresIn;
      var active := "nbf" !in payload || payload["nbf"].n <= later;
      && (!active ==> LibraryVerify(j, key, token, later) == NotBeforeError)
      && (active && later < expiry ==> LibraryVerify(j, key, token, later) == Decoded(Claims(payload, now, Some(expiresIn))))
      && (active && later >= expiry ==> LibraryVerify(j, key, token, later) == TokenExpiredError)
  {
    var t := SignedToken(Claims(payload, now, Some(expiresIn)), key);
    assert j.decode(j.encode(t)) == Some(t);
  }

  /** A token signed without a lifetime, for a payload without `exp`, never expires; it is refused only before its `nbf`. */
  lemma UnlimitedTokenNeverExpires(j: Jwt, key: string, payload: Payload, now: int, later: int)
    requires RoundTrips(j) && "exp" !in payload
    ensures Sign(j, key, payload, now, None).Ok? <==> NumericDates(payload)
    ensures Sign(j, key, payload, now, None).Ok? ==>
      LibraryVerify(j, key, Sign(j, key, payload, now, None).value, later)
        == if "nbf" in payload && payload["nbf"].n > later then NotBeforeError else Decoded(Claims(payload, now, None))
  {
    var t := SignedToken(Claims(payload, now, None), key);
    assert j.decode(j.encode(t)) == Some(t);
  }

  /** A token signed under another key is invalid, never merely expired. */
  lemma ForeignKeyInvalid(j: Jwt, key: string, other: string, payload: Payload, now: int, later: int, expiresIn: Option<nat>)
    requires RoundTrips(j) && key != other && Sign(j, other, payload, now, expiresIn).Ok?
    ensures LibraryVerify(j, key, Sign(j, other, payload, now, expiresIn).value, later) == JsonWebTokenError
  {
    var t := SignedToken(Claims(payload, now, expiresIn), other);
    assert j.decode(j.encode(t)) == Some(t);
  }

  /** Signing keeps every claim of the caller apart from `iat` and `exp`. */
  lemma ClaimsKeepPayload(payload: Payload, now: int, expiresIn: Option<nat>)
    ensures forall k :: k in payload && k != "iat" && k != "exp" ==> k in Claims(payload, now, expiresIn) && Claims(payload, now, expiresIn)[k] == payload[k]
    ensures Claims(payload, now, expiresIn).Keys == payload.Keys + {"iat"} + (if expiresIn.Some? then {"exp"} else {})
  {
  }
}
