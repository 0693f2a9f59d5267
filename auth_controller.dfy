/**
 * The authentication controller: login checks a password against the stored
 * `<hex IV>:<ciphertext>` string and issues an access and a refresh token;
 * register stores the encrypted password and issues the same pair. Every
 * failure of a handler ends in one fixed error reply.
 */
module AuthController {
  import opened Common
  import opened Json
  import opened Http
  import opened UsersEntity
  import Hex
  import Password
  import Jwt = JwtService
  import UserService

  const InvalidCredentials: string := "Email and/or password invalid."
  const CreationFailed: string := "An error occured during the account creation"

  /** The `type` claims; the token-type enumeration itself is not part of this model. */
  const AccessType: Json := JString("ACCESS")
  const RefreshType: Json := JString("REFRESH")

  /** The reply bodies: `{ err }` or `{ data: { accessToken, refreshToken } }`. */
  datatype Body = Error(err: string) | Tokens(accessToken: string, refreshToken: string)

  /** The body accepted by the login schema. */
  datatype LoginData = LoginData(username: Option<string>, email: Option<string>, password: string)

  /** The access-token payload: the public projection of the user, tagged ACCESS. */
  function AccessPayload(u: User): (p: Jwt.Payload)
    ensures "iat" !in p && "exp" !in p && "nbf" !in p && "email" !in p && "password" !in p
    ensures "type" in p && "id" in p && p["type"] == AccessType && p["id"] == JString(u.id)
  {
    UserTypeData(u)["type" := AccessType]
  }

  /** The refresh-token payload: id and email, tagged REFRESH. */
  function RefreshPayload(u: User): (p: Jwt.Payload)
    ensures "iat" !in p && "exp" !in p && "nbf" !in p && "password" !in p
    ensures p.Keys == {"id", "email", "type"}
    ensures p["type"] == RefreshType && p["id"] == JString(u.id) && p["email"] == JString(u.email)
  {
    map["id" := JString(u.id), "email" := JString(u.email), "type" := RefreshType]
  }

  class AuthController {
    const users: UserService.UserService
    const jwt: Jwt.JwtService
    /** The AES cipher and the `SECRET` passphrase used by the password functions. */
    const cipher: Password.Cipher
    const secret: string

    constructor (users: UserService.UserService, jwt: Jwt.JwtService, cipher: Password.Cipher, secret: string)
      ensures this.users == users && this.jwt == jwt && this.cipher == cipher && this.secret == secret
    {
      this.users := users;
      this.jwt := jwt;
      this.cipher := cipher;
      this.secret := secret;
    }

    /** The two tokens issued for a user at time `now`, both with the default lifetime. */
    function IssuedTokens(u: User, now: int): (b: Body)
      ensures b.Tokens?
      ensures b.accessToken == jwt.jwt.encode(Jwt.SignedToken(Jwt.Claims(AccessPayload(u), now, Some(Jwt.DefaultExpiresIn)), jwt.secretKey))
      ensures b.refreshToken == jwt.jwt.encode(Jwt.SignedToken(Jwt.Claims(RefreshPayload(u), now, Some(Jwt.DefaultExpiresIn)), jwt.secretKey))
    {
      Tokens(jwt.SignToken(AccessPayload(u), now).value, jwt.SignToken(RefreshPayload(u), now).value)
    }

    /** The reply `loginUser` sends for a body, given the user table. */
    function LoginReply(rows: seq<User>, body: LoginData, now: int): (r: Reply<Body>)
      ensures r.status == 200 || r == Reply(404, Error(InvalidCredentials))
      ensures r.status == 200 ==> body.email.Some? && exists u :: (u in rows && u.email == body.email.value
        && Password.VerifyPassword(cipher, secret, body.password, u.password) == Ok(true) && r.body == IssuedTokens(u, now))
    {
      if body.email.None? then Reply(404, Error(InvalidCredentials))
      else match UserService.IndexWhere(rows, UserService.Email, body.email.value)
        case None => Reply(404, Error(InvalidCredentials))
        case Some(i) =>
          match Password.VerifyPassword(cipher, secret, body.password, rows[i].password)
          case Ok(true) => Reply(200, IssuedTokens(rows[i], now))
          case _ => Reply(404, Error(InvalidCredentials))
    }

    /**
     * `loginUser`: looks the user up by email only, checks the password and
     * answers 200 with both tokens; an unknown email, a wrong password and an
     * unreadable stored password all end in the same 404. The store is not changed.
     */
    method LoginUser(body: LoginData, res: Response<Body>, now: int)
      modifies res
      ensures res.writes == old(res.writes) + [LoginReply(users.repo.rows, body, now)]
    {
      if body.email.None? {
        // `getUserByEmail(undefined)` is refused by the ORM
        var _ := res.Send(404, Error(InvalidCredentials));
        return;
      }
      var user := users.repo.Find(UserService.Email, body.email.value);
      if user.None? {
        var _ := res.Send(404, Error(InvalidCredentials));
        return;
      }
      var verdict := Password.VerifyPassword(cipher, secret, body.password, user.value.password);
      if verdict.Err? {
        var _ := res.Send(404, Error(InvalidCredentials));
        return;
      }
      if !verdict.value {
        var _ := res.Send(404, Error(InvalidCredentials));
        return;
      }
      var access := jwt.SignToken(AccessPayload(user.value), now);
      var refresh := jwt.SignToken(RefreshPayload(user.value), now);
      var _ := res.Send(200, Tokens(access.value, refresh.value));
    }

    /** The row `registerUser` asks the store to create: the body with its password encrypted. */
    function Stored(body: UserService.RegisterData, iv: seq<Hex.byte>): (d: UserService.RegisterData)
      requires |iv| == Password.IvBytes
      ensures d.password == Password.EncryptPassword(cipher, secret, iv, body.password)
      ensures d.(password := body.password) == body
    {
      body.(password := Password.EncryptPassword(cipher, secret, iv, body.password))
    }

    /**
     * `registerUser`: encrypts the password in place, creates the user and
     * answers 201 with both tokens; any failure, a taken username or email
     * included, answers 500. `iv` is the random IV, `id` and `createdAt` what
     * the database assigns.
     */
    method RegisterUser(body: UserService.RegisterData, iv: seq<Hex.byte>, id: string, createdAt: string, now: int, res: Response<Body>)
      requires |iv| == Password.IvBytes && users.repo.Valid()
      modifies res, users.repo
      ensures users.repo.Valid()
      ensures var data := Stored(body, iv);
        var refused := exists u :: u in old(users.repo.rows) && (u.id == id || u.username == data.username || u.email == data.email);
        var created := User(id, data.username, data.firstName, data.lastName, data.email, data.password, createdAt, None, None);
        && (refused ==> users.repo.rows == old(users.repo.rows) && res.writes == old(res.writes) + [Reply(500, Error(CreationFailed))])
        && (!refused ==> users.repo.rows == old(users.repo.rows) + [created]
                         && res.writes == old(res.writes) + [Reply(201, IssuedTokens(created, now))])
    {
      var userData := body;
      userData := userData.(password := Password.EncryptPassword(cipher, secret, iv, userData.password));
      var user := users.CreateUser(userData, id, createdAt);
      if user.Err? {
        var _ := res.Send(500, Error(CreationFailed));
        return;
      }
      var access := jwt.SignToken(AccessPayload(user.value), now);
      var refresh := jwt.SignToken(RefreshPayload(user.value), now);
      var _ := res.Send(201, Tokens(access.value, refresh.value));
    }

    /** A body with only a username never logs in, whatever the password. */
    lemma UsernameOnlyRefused(rows: seq<User>, username: string, password: string, now: int)
      ensures LoginReply(rows, LoginData(Some(username), None, password), now) == Reply(404, Error(InvalidCredentials))
    {
    }

    /**
     * An unknown email and a wrong password get the identical reply, so the
     * reply does not tell which one happened.
     */
    lemma UnknownEmailAndWrongPasswordAlike(rows: seq<User>, unknown: string, i: nat, iv: seq<Hex.byte>, password: string, guess: string, now: int)
      requires Password.Sound(cipher) && UserService.UniqueKeys(rows) && |iv| == Password.IvBytes
      requires forall u :: u in rows ==> u.email != unknown
      requires i < |rows| && rows[i].password == Password.EncryptPassword(cipher, secret, iv, password) && guess != password
      ensures LoginReply(rows, LoginData(None, Some(unknown), guess), now)
           == LoginReply(rows, LoginData(None, Some(rows[i].email), guess), now)
           == Reply(404, Error(InvalidCredentials))
    {
      UserService.IndexWhereUnique(rows, UserService.Email, rows[i].email, i);
      Password.VerifyOtherRefused(cipher, secret, iv, password, guess);
    }

    /** A user whose stored password encrypts `password` logs in with their email and that password. */
    lemma RightPasswordLogsIn(rows: seq<User>, i: nat, iv: seq<Hex.byte>, password: string, username: Option<string>, now: int)
      requires Password.Sound(cipher) && UserService.UniqueKeys(rows) && |iv| == Password.IvBytes
      requires i < |rows| && rows[i].password == Password.EncryptPassword(cipher, secret, iv, password)
      ensures LoginReply(rows, LoginData(username, Some(rows[i].email), password), now) == Reply(200, IssuedTokens(rows[i], now))
    {
      UserService.IndexWhereUnique(rows, UserService.Email, rows[i].email, i);
      Password.VerifyEncrypted(cipher, secret, iv, password);
    }

    /**
     * Both tokens carry the same `exp`, 24 hours after issue: the refresh
     * token does not outlive the access token. Until then the access token
     * decodes to claims without email or password, the refresh token to claims
     * with the email.
     */
    lemma IssuedTokensLifetime(u: User, now: int, later: int)
      requires Jwt.RoundTrips(jwt.jwt) && now <= later
      ensures var b := IssuedTokens(u, now);
        var access := Jwt.LibraryVerify(jwt.jwt, jwt.secretKey, b.accessToken, later);
        var refresh := Jwt.LibraryVerify(jwt.jwt, jwt.secretKey, b.refreshToken, later);
        && (later < now + Jwt.DefaultExpiresIn ==>
              && access.Decoded? && "email" !in access.payload && "password" !in access.payload
              && access.payload["type"] == AccessType && access.payload["exp"] == JNumber(now + Jwt.DefaultExpiresIn)
              && refresh.Decoded? && refresh.payload["email"] == JString(u.email)
              && refresh.payload["type"] == RefreshType && refresh.payload["exp"] == JNumber(now + Jwt.DefaultExpiresIn))
        && (later >= now + Jwt.DefaultExpiresIn ==> access.TokenExpiredError? && refresh.TokenExpiredError?)
    {
      Jwt.SignedTokenLifetime(jwt.jwt, jwt.secretKey, AccessPayload(u), now, Jwt.DefaultExpiresIn, later);
      Jwt.SignedTokenLifetime(jwt.jwt, jwt.secretKey, RefreshPayload(u), now, Jwt.DefaultExpiresIn, later);
    }

    /** A user who has just registered can log in with the email and the plaintext password they registered with. */
    lemma RegisteredUserLogsIn(rows: seq<User>, body: UserService.RegisterData, iv: seq<Hex.byte>, id: string, createdAt: string, now: int)
      requires Password.Sound(cipher) && UserService.UniqueKeys(rows) && |iv| == Password.IvBytes
      requires UserService.UniqueKeys(rows + [User(id, body.username, body.firstName, body.lastName, body.email, Stored(body, iv).password, createdAt, None, None)])
      ensures var after := rows + [User(id, body.username, body.firstName, body.lastName, body.email, Stored(body, iv).password, createdAt, None, None)];
        LoginReply(after, LoginData(None, Some(body.email), body.password), now) == Reply(200, IssuedTokens(after[|rows|], now))
    {
      var after := rows + [User(id, body.username, body.firstName, body.lastName, body.email, Stored(body, iv).password, createdAt, None, None)];
      RightPasswordLogsIn(after, |rows|, iv, body.password, None, now);
    }
  }
}
