/**
 * Properties of the session lifecycle that span several requests: rotation of
 * the refresh token, single active refresh token per user, invalidation on
 * logout, and the register / login / refresh round trip.
 */
module SessionProperties {
  import opened Wrappers
  import opened Http
  import opened Crypto
  import opened UserModel
  import opened UserController
  import JsString

  /** `t` is a non-empty refresh token that jwt.verify, at time `at`, accepts and attributes to user `id`. */
  ghost predicate RefreshTokenFor(env: Env, t: Token, id: int, at: nat) {
    && t != ""
    && env.verify(t, env.config.refreshTokenSecret, at).Ok?
    && env.verify(t, env.config.refreshTokenSecret, at).value.id == id
  }

  /**
   * Whenever jwt.verify accepts the refresh token `t`, it attributes it to user
   * `id`: the payload of a token does not change with the time of the request.
   */
  ghost predicate NamesSubject(env: Env, t: Token, id: int) {
    forall at :: env.verify(t, env.config.refreshTokenSecret, at).Ok? ==>
      env.verify(t, env.config.refreshTokenSecret, at).value.id == id
  }

  /**
   * Rotation: once a refresh has issued a token different from the one
   * presented, presenting the superseded token again fails and writes nothing.
   * While jwt.verify still accepts it, it fails the comparison with the stored
   * token; once it has expired, jwt.verify's own error escapes the handler.
   */
  lemma SupersededRefreshTokenRejected(db: Db, env: Env, t: Token, now: nat, later: nat)
    requires RefreshAccessTokenSpec(db, env, Some(t), now).1.Ok?
    requires RefreshAccessTokenSpec(db, env, Some(t), now).1.value.cookies.refreshToken != t
    requires NamesSubject(env, t, env.verify(t, env.config.refreshTokenSecret, now).value.id)
    ensures
      var db' := RefreshAccessTokenSpec(db, env, Some(t), now).0;
      var again := RefreshAccessTokenSpec(db', env, Some(t), later);
      && again.0 == db'
      && again.1.Err?
      && (env.verify(t, env.config.refreshTokenSecret, later).Ok? ==> again.1 == Err(InvalidRefreshToken))
      && (env.verify(t, env.config.refreshTokenSecret, later).Err? ==> again.1.error.Unhandled?)
  {
    var (db', reply) := RefreshAccessTokenSpec(db, env, Some(t), now);
    var id := env.verify(t, env.config.refreshTokenSecret, now).value.id;
    assert db'.users[id].refreshToken == Some(reply.value.cookies.refreshToken);
  }

  /**
   * Single active session: after a login of user `id`, every refresh token for
   * `id` other than the one just issued is refused.
   */
  lemma LoginSupersedesEarlierTokens(db: Db, env: Env, email: Option<string>, password: Option<string>,
                                     now: nat, t: Token, later: nat)
    requires LoginSpec(db, env, email, password, now).1.Ok?
    requires RefreshTokenFor(env, t, LoginSpec(db, env, email, password, now).1.value.data.value.id, later)
    requires t != LoginSpec(db, env, email, password, now).1.value.cookies.refreshToken
    ensures
      var db' := LoginSpec(db, env, email, password, now).0;
      RefreshAccessTokenSpec(db', env, Some(t), later) == (db', Err(InvalidRefreshToken))
  {
    var (db', reply) := LoginSpec(db, env, email, password, now);
    var id := reply.value.data.value.id;
    assert db'.users[id].refreshToken == Some(reply.value.cookies.refreshToken);
  }

  /** After logout the stored refresh token is null, so no token for that user is accepted. */
  lemma RefreshFailsAfterLogout(db: Db, env: Env, id: int, t: Token, later: nat)
    requires RefreshTokenFor(env, t, id, later)
    ensures
      var db' := LogoutSpec(db, id).0;
      RefreshAccessTokenSpec(db', env, Some(t), later).1.Err? &&
      RefreshAccessTokenSpec(db', env, Some(t), later).0 == db'
  {
    var db' := LogoutSpec(db, id).0;
    if id in db.users {
      assert db'.users[id].refreshToken.None?;
      assert RefreshAccessTokenSpec(db', env, Some(t), later).1 == Err(InvalidRefreshToken);
    } else {
      assert RefreshAccessTokenSpec(db', env, Some(t), later).1 == Err(UserNotFound);
    }
  }

  /** Logging out twice leaves the table as logging out once. */
  lemma LogoutIdempotent(db: Db, id: int)
    ensures LogoutSpec(LogoutSpec(db, id).0, id) == LogoutSpec(db, id)
  {
    var once := LogoutSpec(db, id).0;
    var twice := LogoutSpec(once, id).0;
    assert twice.users == once.users;
  }

  /** Every handler keeps the table invariant. */
  lemma HandlersKeepValid(db: Db, env: Env, email: Option<string>, password: Option<string>,
                          presented: Option<Token>, id: int, now: nat)
    requires ValidDb(db)
    ensures ValidDb(LoginSpec(db, env, email, password, now).0)
    ensures ValidDb(RefreshAccessTokenSpec(db, env, presented, now).0)
    ensures ValidDb(LogoutSpec(db, id).0)
  {
    var login := LoginSpec(db, env, email, password, now);
    if login.1.Ok? {
      SetRefreshTokenKeepsValid(db, login.1.value.data.value.id, Some(login.1.value.cookies.refreshToken));
    }
    var refresh := RefreshAccessTokenSpec(db, env, presented, now);
    if refresh.1.Ok? {
      var sub := env.verify(presented.value, env.config.refreshTokenSecret, now).value.id;
      SetRefreshTokenKeepsValid(db, sub, Some(refresh.1.value.cookies.refreshToken));
    }
    SetRefreshTokenKeepsValid(db, id, None);
  }

  /**
   * A user who has just registered can log in with the same email and
   * password, and the login resolves to the new row.
   */
  lemma RegisterThenLogin(db: Db, env: Env, username: Option<string>, email: Option<string>,
                          password: Option<string>, salt: nat, now: nat)
    requires ValidDb(db) && HashSound(env)
    requires RegisterUserSpec(db, env, username, email, password, salt).1.Ok?
    ensures
      var db' := RegisterUserSpec(db, env, username, email, password, salt).0;
      LoginSpec(db', env, email, password, now).1.Ok? &&
      LoginSpec(db', env, email, password, now).1.value.data.value.id == db.nextId
  {
    var db' := RegisterUserSpec(db, env, username, email, password, salt).0;
    RegisterKeepsValid(db, env, username, email, password, salt);
    var id := db.nextId;
    assert id in db'.users && db'.users[id].email == email.value;
    var found := FindByEmail(db'.users, email.value);
    assert found == Some(id);
    assert env.compare(password.value, env.hash(password.value, SaltRounds, salt));
  }

  /**
   * Round trip: the refresh token a login sets as a cookie is accepted by the
   * next refresh, provided jwt.verify still accepts it at that time.
   */
  lemma LoginThenRefresh(db: Db, env: Env, email: Option<string>, password: Option<string>, now: nat, later: nat)
    requires LoginSpec(db, env, email, password, now).1.Ok?
    requires
      var reply := LoginSpec(db, env, email, password, now).1.value;
      RefreshTokenFor(env, reply.cookies.refreshToken, reply.data.value.id, later)
    ensures
      var (db', reply) := LoginSpec(db, env, email, password, now);
      RefreshAccessTokenSpec(db', env, Some(reply.value.cookies.refreshToken), later).1.Ok?
  {
    var (db', reply) := LoginSpec(db, env, email, password, now);
    var id := reply.value.data.value.id;
    assert db'.users[id].refreshToken == Some(reply.value.cookies.refreshToken);
  }

  /**
   * Stored usernames are lower-cased, so under an exact (case-sensitive)
   * comparison of strings the duplicate lookup, which compares the username as
   * sent, never matches a username that has upper-case letters. MySQL's default
   * collation compares case-insensitively and would match it.
   */
  lemma MixedCaseUsernameNeverMatchesLookup(db: Db, email: string, username: string)
    requires ValidDb(db)
    requires JsString.ToLower(username) != username
    ensures !ExistsWithEmailAndUsername(db.users, email, username)
  {
  }

  /**
   * Sending an existing user's exact username and email again (with any
   * password) is caught by the duplicate lookup: "User already exists", nothing
   * written.
   */
  lemma ReRegistrationRefused(db: Db, env: Env, k: int, password: Option<string>, salt: nat)
    requires k in db.users
    requires db.users[k].username != "" && db.users[k].email != "" && Present(password)
    ensures
      RegisterUserSpec(db, env, Some(db.users[k].username), Some(db.users[k].email), password, salt)
        == (db, Err(UserAlreadyExists))
  {
    assert ExistsWithEmailAndUsername(db.users, db.users[k].email, db.users[k].username);
  }

  /**
   * A registration that collides with a row on the lower-cased username or on
   * the email but escapes the duplicate lookup (on the email alone, or, under a
   * case-sensitive collation, on the username in another case) still inserts
   * nothing: the ORM
   * refuses it (e-mail validation or unique constraint) instead of the lookup's
   * 400.
   */
  lemma DuplicateMissedByLookupStillRefused(db: Db, env: Env, username: Option<string>, email: Option<string>,
                                            password: Option<string>, salt: nat)
    requires Present(username) && Present(email) && Present(password)
    requires Taken(db.users, JsString.ToLower(username.value), email.value)
    requires !ExistsWithEmailAndUsername(db.users, email.value, username.value)
    ensures
      var res := RegisterUserSpec(db, env, username, email, password, salt);
      res.0 == db && res.1.Err? && res.1.error.Unhandled?
  {
  }

  /**
   * Register alice, log in (tokens at1/rt1), refresh with rt1 (tokens at2/rt2),
   * then refresh with rt1 again: the last call is refused and writes nothing,
   * as a stale token while jwt.verify still accepts rt1. Assumes that a refresh
   * token issued at t1 is accepted at t2 and names its user whenever accepted,
   * and that tokens signed at different times differ.
   */
  lemma AliceScenario(db0: Db, env: Env, salt: nat, t1: nat, t2: nat, t3: nat)
    requires ValidDb(db0) && HashSound(env)
    requires env.isEmail("alice@x.com")
    requires !Taken(db0.users, "alice", "alice@x.com")
    requires forall id, u :: RefreshTokenFor(env, GenerateRefreshToken(env, id, u, t1), id, t2)
    requires forall id, u :: NamesSubject(env, GenerateRefreshToken(env, id, u, t1), id)
    requires forall id, u :: GenerateRefreshToken(env, id, u, t1) != GenerateRefreshToken(env, id, u, t2)
    ensures
      var (db1, registered) := RegisterUserSpec(db0, env, Some("alice"), Some("alice@x.com"), Some("pw"), salt);
      var (db2, loggedIn) := LoginSpec(db1, env, Some("alice@x.com"), Some("pw"), t1);
      && registered.Ok?
      && loggedIn.Ok?
      && var rt1 := loggedIn.value.cookies.refreshToken;
         var (db3, refreshed) := RefreshAccessTokenSpec(db2, env, Some(rt1), t2);
         && refreshed.Ok?
         && RefreshAccessTokenSpec(db3, env, Some(rt1), t3).0 == db3
         && RefreshAccessTokenSpec(db3, env, Some(rt1), t3).1.Err?
         && (env.verify(rt1, env.config.refreshTokenSecret, t3).Ok? ==>
               RefreshAccessTokenSpec(db3, env, Some(rt1), t3).1 == Err(InvalidRefreshToken))
  {
    assert JsString.ToLower("alice") == "alice";
    assert !ExistsWithEmailAndUsername(db0.users, "alice@x.com", "alice");
    var (db1, registered) := RegisterUserSpec(db0, env, Some("alice"), Some("alice@x.com"), Some("pw"), salt);
    assert registered.Ok?;
    RegisterKeepsValid(db0, env, Some("alice"), Some("alice@x.com"), Some("pw"), salt);
    RegisterThenLogin(db0, env, Some("alice"), Some("alice@x.com"), Some("pw"), salt, t1);
    var (db2, loggedIn) := LoginSpec(db1, env, Some("alice@x.com"), Some("pw"), t1);
    var id := loggedIn.value.data.value.id;
    var rt1 := loggedIn.value.cookies.refreshToken;
    assert rt1 == GenerateRefreshToken(env, id, db1.users[id], t1);
    LoginThenRefresh(db1, env, Some("alice@x.com"), Some("pw"), t1, t2);
    var (db3, refreshed) := RefreshAccessTokenSpec(db2, env, Some(rt1), t2);
    assert db2.users[id] == db1.users[id].(refreshToken := Some(rt1));
    TokensReadIdentityOnly(env, id, db1.users[id], db2.users[id], t2);
    assert refreshed.value.cookies.refreshToken == GenerateRefreshToken(env, id, db1.users[id], t2);
    SupersededRefreshTokenRejected(db2, env, rt1, t2, t3);
  }
}
