/**
 * The authentication middleware: a header check, token verification and a
 * user lookup, ending on the first failure with a 401 or, on success, with the
 * user attached to the request and `next` called.
 */
module AuthMiddleware {
  import opened Common
  import opened Strings
  import opened Json
  import opened Http
  import opened UsersEntity
  import UserService
  import Jwt = JwtService

  const BearerPrefix: string := "Bearer "

  const NoToken: string := "No token provided."
  const BadFormat: string := "Invalid token format."
  const Expired: string := "Token expired."
  const Invalid: string := "Invalid token."

  /** The request, of which the middleware reads the `Authorization` header and writes `user`. */
  class Request {
    const authorization: Option<string>
    var user: Option<User>

    constructor (authorization: Option<string>)
      ensures this.authorization == authorization && user == None
    {
      this.authorization := authorization;
      user := None;
    }
  }

  /** How the middleware ends: a 401 with its message, or `next` with the user it attached. */
  datatype Outcome = Unauthorized(message: string) | Proceed(user: User)

  /** The `id` claim of a decoded payload, when it is a string. */
  function IdClaim(decoded: Jwt.Payload): Option<string> {
    if "id" in decoded && decoded["id"].JString? then Some(decoded["id"].s) else None
  }

  /** The decision the middleware takes, step by step. */
  function Decide(jwt: Jwt.Jwt, secret: string, users: seq<User>, header: Option<string>, now: int): (r: Outcome)
    ensures r.Proceed? ==> r.user in users && header.Some? && StartsWith(header.value, BearerPrefix)
    ensures r.Unauthorized? ==> r.message in {NoToken, BadFormat, Invalid, Expired}
  {
    if header == None || header.value == "" then Unauthorized(NoToken)
    else if !StartsWith(header.value, BearerPrefix) then Unauthorized(BadFormat)
    else
      var token := ReplaceFirst(header.value, BearerPrefix, "");
      match Jwt.LibraryVerify(jwt, secret, token, now)
      case JsonWebTokenError => Unauthorized(Invalid)
      case NotBeforeError => Unauthorized(Invalid)
      case TokenExpiredError => Unauthorized(Expired)
      case Decoded(payload) =>
        match IdClaim(payload)
        case None => Unauthorized(Invalid)
        case Some(id) =>
          match UserService.IndexWhere(users, UserService.Id, id)
          case None => Unauthorized(Invalid)
          case Some(i) => Proceed(users[i])
  }

  /**
   * `authMiddleware`. Writes exactly one 401 and does not proceed, or writes
   * nothing, attaches the user and proceeds (`next` is assumed to return).
   */
  method Authenticate(req: Request, res: Response<Message>, jwt: Jwt.JwtService, repo: UserService.UserRepository, now: int)
    returns (proceeded: bool)
    modifies req, res
    ensures var d := Decide(jwt.jwt, jwt.secretKey, repo.rows, req.authorization, now);
      && (d.Unauthorized? ==> !proceeded && res.writes == old(res.writes) + [Reply(401, Message("err", d.message))]
                              && req.user == old(req.user))
      && (d.Proceed? ==> proceeded && res.writes == old(res.writes) && req.user == Some(d.user))
  {
    var tokenStr := req.authorization;
    if tokenStr == None || tokenStr.value == "" {
      var _ := res.Send(401, Message("err", NoToken));
      return false;
    }
    if !StartsWith(tokenStr.value, BearerPrefix) {
      var _ := res.Send(401, Message("err", BadFormat));
      return false;
    }
    var token := ReplaceFirst(tokenStr.value, BearerPrefix, "");
    var verification := jwt.VerifyToken(token, now);
    if verification.Err? {
      var _ := res.Send(401, Message("err", Invalid));
      return false;
    }
    if verification.value.tokenExpired {
      var _ := res.Send(401, Message("err", Expired));
      return false;
    }
    var decoded := verification.value.decoded.value;
    var id := IdClaim(decoded);
    if id.None? {
      // `decoded.id` is undefined: the ORM refuses the lookup and the error is caught
      var _ := res.Send(401, Message("err", Invalid));
      return false;
    }
    var user := repo.Find(UserService.Id, id.value);
    if user.None? {
      var _ := res.Send(401, Message("err", Invalid));
      return false;
    }
    req.user := user;
    return true;
  }

  /** The token handed to verification is the header after its leading `'Bearer '`. */
  lemma TokenIsSuffix(header: string)
    requires StartsWith(header, BearerPrefix)
    ensures ReplaceFirst(header, BearerPrefix, "") == header[7..]
  {
    ReplaceFirstAtStart(header, BearerPrefix);
  }

  /** A missing or empty header is refused before anything else. */
  lemma MissingHeaderRefused(jwt: Jwt.Jwt, secret: string, users: seq<User>, header: Option<string>, now: int)
    requires header == None || header == Some("")
    ensures Decide(jwt, secret, users, header, now) == Unauthorized(NoToken)
  {
  }

  /** The scheme is matched exactly and case-sensitively: `bearer x` and `Token x` are malformed. */
  lemma SchemeIsCaseSensitive(jwt: Jwt.Jwt, secret: string, users: seq<User>, rest: string, now: int)
    ensures Decide(jwt, secret, users, Some("bearer " + rest), now) == Unauthorized(BadFormat)
    ensures Decide(jwt, secret, users, Some("Token " + rest), now) == Unauthorized(BadFormat)
  {
    assert ("bearer " + rest)[0] == 'b';
    assert ("Token " + rest)[0] == 'T';
  }

  /** An expired token is refused as expired whatever the user table holds: no lookup takes place. */
  lemma ExpiredNeedsNoLookup(jwt: Jwt.Jwt, secret: string, users1: seq<User>, users2: seq<User>, header: string, now: int)
    requires StartsWith(header, BearerPrefix) && header != ""
    requires Jwt.LibraryVerify(jwt, secret, header[7..], now).TokenExpiredError?
    ensures Decide(jwt, secret, users1, Some(header), now) == Unauthorized(Expired)
    ensures Decide(jwt, secret, users2, Some(header), now) == Unauthorized(Expired)
  {
    TokenIsSuffix(header);
  }

  /**
   * A forged token and a valid token for a user who is not in the table get
   * the same reply, so the reply does not reveal which one happened.
   */
  lemma ForgedAndUnknownAlike(jwt: Jwt.Jwt, secret: string, users: seq<User>, forged: string, unknown: string, now: int)
    requires StartsWith(forged, BearerPrefix) && StartsWith(unknown, BearerPrefix) && forged != "" && unknown != ""
    requires Jwt.LibraryVerify(jwt, secret, forged[7..], now).JsonWebTokenError?
    requires Jwt.LibraryVerify(jwt, secret, unknown[7..], now).Decoded?
    requires var p := Jwt.LibraryVerify(jwt, secret, unknown[7..], now).payload;
      IdClaim(p).Some? && forall u :: u in users ==> u.id != IdClaim(p).value
    ensures Decide(jwt, secret, users, Some(forged), now) == Decide(jwt, secret, users, Some(unknown), now) == Unauthorized(Invalid)
  {
    TokenIsSuffix(forged);
    TokenIsSuffix(unknown);
  }

  /**
   * The token type is never read: an ACCESS and a REFRESH token that differ
   * only in their `type` claim lead to the same outcome.
   */
  lemma TypeClaimIgnored(jwt: Jwt.Jwt, secret: string, users: seq<User>, payload: Jwt.Payload, issued: int, now: int)
    requires Jwt.RoundTrips(jwt) && "exp" !in payload
    ensures var access := Jwt.Sign(jwt, secret, payload["type" := JString("ACCESS")], issued, Some(Jwt.DefaultExpiresIn));
            var refresh := Jwt.Sign(jwt, secret, payload["type" := JString("REFRESH")], issued, Some(Jwt.DefaultExpiresIn));
      && (access.Ok? <==> Jwt.NumericDates(payload))
      && (refresh.Ok? <==> Jwt.NumericDates(payload))
      && (access.Ok? ==>
            Decide(jwt, secret, users, Some(BearerPrefix + access.value), now) == Decide(jwt, secret, users, Some(BearerPrefix + refresh.value), now))
  {
    var pa, pr := payload["type" := JString("ACCESS")], payload["type" := JString("REFRESH")];
    assert Jwt.NumericDates(pa) == Jwt.NumericDates(payload) == Jwt.NumericDates(pr);
    if Jwt.NumericDates(payload) {
      var ta := Jwt.SignedToken(Jwt.Claims(pa, issued, Some(Jwt.DefaultExpiresIn)), secret);
      var tr := Jwt.SignedToken(Jwt.Claims(pr, issued, Some(Jwt.DefaultExpiresIn)), secret);
      assert jwt.decode(jwt.encode(ta)) == Some(ta);
      assert jwt.decode(jwt.encode(tr)) == Some(tr);
      var ha, hr := BearerPrefix + jwt.encode(ta), BearerPrefix + jwt.encode(tr);
      assert ha[..7] == BearerPrefix && ha[7..] == jwt.encode(ta);
      assert hr[..7] == BearerPrefix && hr[7..] == jwt.encode(tr);
      TokenIsSuffix(ha);
      TokenIsSuffix(hr);
      assert Jwt.IssuedAt(pa, issued) == Jwt.IssuedAt(payload, issued) == Jwt.IssuedAt(pr, issued);
      assert ta.payload["exp"] == tr.payload["exp"];
      assert ("nbf" in ta.payload <==> "nbf" in tr.payload) && ("nbf" in ta.payload ==> ta.payload["nbf"] == tr.payload["nbf"]);
      assert IdClaim(ta.payload) == IdClaim(tr.payload);
      SameClaimsSameDecision(jwt, secret, users, ha, hr, ta, tr, now);
    }
  }

  /**
   * Two bearer headers whose tokens carry the same key, the same `nbf`, the
   * same `exp` and the same `id` claim lead to the same decision.
   */
  lemma SameClaimsSameDecision(jwt: Jwt.Jwt, secret: string, users: seq<User>, h1: string, h2: string,
                               t1: Jwt.SignedToken, t2: Jwt.SignedToken, now: int)
    requires StartsWith(h1, BearerPrefix) && StartsWith(h2, BearerPrefix)
    requires jwt.decode(h1[7..]) == Some(t1) && jwt.decode(h2[7..]) == Some(t2) && t1.key == t2.key
    requires ("nbf" in t1.payload <==> "nbf" in t2.payload)
    requires "nbf" in t1.payload ==> t1.payload["nbf"] == t2.payload["nbf"]
    requires ("exp" in t1.payload <==> "exp" in t2.payload)
    requires "exp" in t1.payload ==> t1.payload["exp"] == t2.payload["exp"]
    requires IdClaim(t1.payload) == IdClaim(t2.payload)
    ensures Decide(jwt, secret, users, Some(h1), now) == Decide(jwt, secret, users, Some(h2), now)
  {
    TokenIsSuffix(h1);
    TokenIsSuffix(h2);
  }

  /** A soft-deleted user still authenticates: the lookup by id does not look at `deletedAt`. */
  lemma DeletedUserAuthenticates(jwt: Jwt.Jwt, secret: string, users: seq<User>, i: nat, header: string, deletedAt: string, now: int)
    requires UserService.UniqueKeys(users) && i < |users|
    requires StartsWith(header, BearerPrefix) && header != ""
    requires Jwt.LibraryVerify(jwt, secret, header[7..], now).Decoded?
    requires IdClaim(Jwt.LibraryVerify(jwt, secret, header[7..], now).payload) == Some(users[i].id)
    ensures var after := users[i := users[i].(deletedAt := Some(deletedAt))];
      Decide(jwt, secret, after, Some(header), now) == Proceed(after[i])
  {
    TokenIsSuffix(header);
    UserService.DeletedUserStillFound(users, i, deletedAt);
  }
}
