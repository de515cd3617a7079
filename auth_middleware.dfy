/**
 * The `verifyJWT` middleware that guards the protected routes: it takes the
 * access token from the `accessToken` cookie or from the `Authorization`
 * header, verifies it with the access secret, loads the token's user without
 * the secret columns, attaches that user to the request and hands the request
 * on to the next handler once. Every failure is reported as a 401, which
 * asyncHandler passes on as `next(err)` instead.
 */
module AuthMiddleware {
  import opened Wrappers
  import opened Http
  import opened Crypto
  import opened UserModel
  import opened JsString
  import UserController

  const BearerPrefix := "Bearer "

  /**
   * Where the gate finds the access token: a truthy `accessToken` cookie wins;
   * otherwise the `Authorization` header with its first "Bearer " removed,
   * wherever in the header it occurs.
   */
  function ExtractToken(cookie: Option<string>, authorization: Option<string>): (r: Option<string>)
    ensures Present(cookie) ==> r == cookie
    ensures !Present(cookie) ==> (r.Some? <==> authorization.Some?)
    ensures !Present(cookie) && authorization.Some? && IndexOf(authorization.value, BearerPrefix).None? ==>
              r == authorization
    ensures !Present(cookie) && authorization.Some? && IndexOf(authorization.value, BearerPrefix).Some? ==>
      var header, i := authorization.value, IndexOf(authorization.value, BearerPrefix).value;
      r == Some(header[..i] + header[i + |BearerPrefix|..])
  {
    if Present(cookie) then cookie
    else
      match authorization
      case None => None
      case Some(header) =>
        ReplaceFirstAtIndexOf(header, BearerPrefix, "");
        assert forall x: string :: x + "" == x;
        Some(ReplaceFirst(header, BearerPrefix, ""))
  }

  /** Without a usable cookie, `Authorization: Bearer X` yields exactly `X`. */
  lemma BearerHeaderYieldsToken(cookie: Option<string>, x: string)
    requires !Present(cookie)
    ensures ExtractToken(cookie, Some(BearerPrefix + x)) == Some(x)
  {
    ReplaceLeading(BearerPrefix, x);
  }

  /** A header in which "Bearer " does not occur is used as the token unchanged. */
  lemma HeaderWithoutBearerUnchanged(cookie: Option<string>, header: string)
    requires !Present(cookie)
    requires forall i :: !OccursAt(header, BearerPrefix, i)
    ensures ExtractToken(cookie, Some(header)) == Some(header)
  {
  }

  /**
   * The gate's decision for one request against the users table: the user to
   * attach, or the 401 it answers with. A failure of jwt.verify keeps the
   * library's message, the catch block's fallback being "Invalid access token".
   */
  function Authenticate(env: Env, cookie: Option<string>, authorization: Option<string>,
                        users: map<int, User>, now: nat): (r: Result<PublicUser, Failure>)
    ensures r.Err? ==> r.error.ApiError? && r.error.status == 401
    ensures !Present(ExtractToken(cookie, authorization)) ==> r == Err(ApiError(401, "Unauthorized request"))
    ensures r.Ok? <==>
      && Present(ExtractToken(cookie, authorization))
      && env.verify(ExtractToken(cookie, authorization).value, env.config.accessTokenSecret, now).Ok?
      && env.verify(ExtractToken(cookie, authorization).value, env.config.accessTokenSecret, now).value.id in users
    ensures r.Ok? ==>
      var id := env.verify(ExtractToken(cookie, authorization).value, env.config.accessTokenSecret, now).value.id;
      r.value == PublicView(id, users[id])
  {
    var token := ExtractToken(cookie, authorization);
    if !Present(token) then
      Err(ApiError(401, "Unauthorized request"))
    else
      match env.verify(token.value, env.config.accessTokenSecret, now)
      case Err(message) => Err(ApiError(401, if message != "" then message else "Invalid access token"))
      case Ok(decoded) =>
        if decoded.id !in users then Err(ApiError(401, "Invalid Access Token"))
        else Ok(PublicView(decoded.id, users[decoded.id]))
  }

  /**
   * The Express request as the gate sees it: two inputs, the attached user,
   * and how often it was handed on to the next handler (`next()` without an
   * error).
   */
  class Request {
    const accessTokenCookie: Option<string>
    const authorization: Option<string>
    var user: Option<PublicUser>
    var nextCalls: nat

    constructor (accessTokenCookie: Option<string>, authorization: Option<string>)
      ensures this.accessTokenCookie == accessTokenCookie && this.authorization == authorization
      ensures user.None? && nextCalls == 0
    {
      this.accessTokenCookie := accessTokenCookie;
      this.authorization := authorization;
      user := None;
      nextCalls := 0;
    }
  }

  /**
   * `verifyJWT`: on success `req.user` is set and the request is handed on to
   * the next handler exactly once; on failure neither happens and the 401 is
   * returned as `failure`, the error asyncHandler passes to `next(err)`. The
   * users table is only read.
   */
  method VerifyJWT(env: Env, req: Request, store: UserController.UserStore, now: nat) returns (failure: Option<Failure>)
    modifies req
    ensures unchanged(store)
    ensures
      match Authenticate(env, req.accessTokenCookie, req.authorization, store.users, now)
      case Ok(u) => failure.None? && req.user == Some(u) && req.nextCalls == old(req.nextCalls) + 1
      case Err(e) => failure == Some(e) && req.user == old(req.user) && req.nextCalls == old(req.nextCalls)
  {
    var token := ExtractToken(req.accessTokenCookie, req.authorization);
    if !Present(token) {
      return Some(ApiError(401, "Unauthorized request"));
    }
    var decoded := env.verify(token.value, env.config.accessTokenSecret, now);
    if decoded.Err? {
      var message := if decoded.error != "" then decoded.error else "Invalid access token";
      return Some(ApiError(401, message));
    }
    var id := decoded.value.id;
    if id !in store.users {
      return Some(ApiError(401, "Invalid Access Token"));
    }
    req.user := Some(PublicView(id, store.users[id]));
    req.nextCalls := req.nextCalls + 1;
    failure := None;
  }

  /**
   * Behind the gate, `getCurrentUser` answers with the user whose id is the
   * access token's subject, read without password or refresh token.
   */
  lemma CurrentUserIsTokenSubject(env: Env, cookie: Option<string>, authorization: Option<string>,
                                  users: map<int, User>, now: nat)
    requires Authenticate(env, cookie, authorization, users, now).Ok?
    ensures
      var token := ExtractToken(cookie, authorization).value;
      var id := env.verify(token, env.config.accessTokenSecret, now).value.id;
      && id in users
      && UserController.GetCurrentUser(Some(Authenticate(env, cookie, authorization, users, now).value))
           == UserController.Reply(200, Some(PublicView(id, users[id])), UserController.NoCookies)
  {
  }
}
