/**
 * The session lifecycle of the user controller: registration, login with the
 * issue of an access/refresh token pair, rotation of the refresh token, logout,
 * and "who am I".
 *
 * Each handler is specified by a function from the store before the request to
 * the store after it and the handler's outcome (`RegisterUserSpec`, `LoginSpec`,
 * `RefreshAccessTokenSpec`, `LogoutSpec`); the class `UserStore` holds the table
 * and its methods perform the same steps in place, proved equal to those
 * functions.
 */
module UserController {
  import opened Wrappers
  import opened Http
  import opened Crypto
  import opened UserModel
  import JsString

  /** The users table: rows by primary key, and the next auto-increment key. */
  datatype Db = Db(users: map<int, User>, nextId: int)

  datatype TokenPair = TokenPair(accessToken: Token, refreshToken: Token)

  /** What a successful response does to the `accessToken` and `refreshToken` cookies. */
  datatype CookieAction = NoCookies | SetTokens(accessToken: Token, refreshToken: Token) | ClearTokens

  /** A successful response: HTTP status, the user in the body (or null) and the cookies. */
  datatype Reply = Reply(status: int, data: Option<PublicUser>, cookies: CookieAction)

  const AllFieldsRequired := ApiError(400, "All fields are required")
  const UserAlreadyExists := ApiError(400, "User already exists")
  const UserNotFound := ApiError(400, "User not found")
  const InvalidPassword := ApiError(400, "Invalid password")
  const RefreshTokenRequired := ApiError(400, "Refresh token is required")
  const InvalidRefreshToken := ApiError(400, "Invalid refresh token")

  /** The unique constraints on `username` and `email`. */
  ghost predicate UniqueUsers(users: map<int, User>) {
    forall i, j :: i in users && j in users && i != j ==>
      users[i].username != users[j].username && users[i].email != users[j].email
  }

  /**
   * The table invariant: unique usernames and emails, keys below the
   * auto-increment counter, and usernames stored lower-cased.
   */
  ghost predicate ValidDb(db: Db) {
    && UniqueUsers(db.users)
    && (forall k :: k in db.users ==> k < db.nextId)
    && (forall k :: k in db.users ==> JsString.ToLower(db.users[k].username) == db.users[k].username)
  }

  /**
   * The duplicate lookup of `registerUser`: its condition is an array of two
   * attribute objects, which the ORM joins with AND, so it finds a row only when
   * both the email and the username (as sent, not lower-cased) match.
   */
  function ExistsWithEmailAndUsername(users: map<int, User>, email: string, username: string): (found: bool)
    ensures found ==> Taken(users, username, email)
    ensures found ==> email in Emails(users) && username in Usernames(users)
    ensures (forall k :: k in users ==> users[k].username != username) ==> !found
    ensures (forall k :: k in users ==> users[k].email != email) ==> !found
  {
    exists k :: k in users && users[k].email == email && users[k].username == username
  }

  /** The values held in the `username` column. */
  ghost function Usernames(users: map<int, User>): set<string> {
    set k | k in users :: users[k].username
  }

  /** The values held in the `email` column. */
  ghost function Emails(users: map<int, User>): set<string> {
    set k | k in users :: users[k].email
  }

  /** Some row already holds this username or this email: the INSERT would break a unique constraint. */
  function Taken(users: map<int, User>, username: string, email: string): (taken: bool)
    ensures taken <==> username in Usernames(users) || email in Emails(users)
  {
    exists k :: k in users && (users[k].username == username || users[k].email == email)
  }

  /** Inserting a row at a fresh key keeps both columns unique exactly when its values are not taken. */
  lemma InsertUniqueIffNotTaken(users: map<int, User>, key: int, u: User)
    requires UniqueUsers(users) && key !in users
    ensures UniqueUsers(users[key := u]) <==> !Taken(users, u.username, u.email)
  {
    var users' := users[key := u];
    if Taken(users, u.username, u.email) {
      var k :| k in users && (users[k].username == u.username || users[k].email == u.email);
      assert k in users' && key in users' && k != key && users'[k] == users[k] && users'[key] == u;
    } else {
      forall i, j | i in users' && j in users' && i != j
        ensures users'[i].username != users'[j].username && users'[i].email != users'[j].email
      {
        if i != key && j != key {
          assert users'[i] == users[i] && users'[j] == users[j];
        }
      }
    }
  }

  /** The lookup of `login`: the row with this email, if any. */
  ghost function FindByEmail(users: map<int, User>, email: string): (r: Option<int>)
    ensures r.Some? ==> r.value in users && users[r.value].email == email
    ensures r.None? <==> forall k :: k in users ==> users[k].email != email
  {
    if exists k :: k in users && users[k].email == email then
      var k :| k in users && users[k].email == email; Some(k)
    else
      None
  }

  /** Overwrite the refresh-token column of row `id`, if there is one. */
  function SetRefreshToken(users: map<int, User>, id: int, t: Option<Token>): (r: map<int, User>)
    ensures r.Keys == users.Keys
    ensures id in users ==> r[id] == users[id].(refreshToken := t)
    ensures forall k :: k in users && k != id ==> r[k] == users[k]
  {
    if id in users then users[id := users[id].(refreshToken := t)] else users
  }

  /**
   * `generateAccessAndRefreshTokens`: sign both tokens for row `id` at time
   * `now` and store the refresh token on the row. A missing row makes the
   * helper log the error and return `undefined` (here `None`), with nothing
   * written.
   */
  function IssueTokens(db: Db, env: Env, id: int, now: nat): (res: (Db, Option<TokenPair>))
    ensures id !in db.users ==> res == (db, None)
    ensures id in db.users ==> res.1.Some?
    ensures id in db.users ==>
      && res.1.value.accessToken == GenerateAccessToken(env, id, db.users[id], now)
      && res.1.value.refreshToken == GenerateRefreshToken(env, id, db.users[id], now)
    ensures id in db.users ==> res.0 == Db(SetRefreshToken(db.users, id, Some(res.1.value.refreshToken)), db.nextId)
  {
    if id !in db.users then (db, None)
    else
      var user := db.users[id];
      var pair := TokenPair(GenerateAccessToken(env, id, user, now), GenerateRefreshToken(env, id, user, now));
      (Db(SetRefreshToken(db.users, id, Some(pair.refreshToken)), db.nextId), Some(pair))
  }

  /** The row `registerUser` inserts for the given request fields. */
  function RegisteredRow(env: Env, username: string, email: string, password: string, salt: nat): User {
    NewUser(JsString.ToLower(username), email, env.hash(password, SaltRounds, salt))
  }

  /**
   * `registerUser`: the field check, the duplicate lookup, then the ORM's create
   * (e-mail validation, the `beforeCreate` hash, the INSERT and its unique
   * constraints), then the read-back without the secret columns.
   */
  function RegisterUserSpec(db: Db, env: Env, username: Option<string>, email: Option<string>,
                            password: Option<string>, salt: nat): (res: (Db, Result<Reply, Failure>))
    ensures res.1.Err? ==> res.0 == db
    ensures res.1 == Err(AllFieldsRequired) <==> !(Present(username) && Present(email) && Present(password))
    ensures res.1 == Err(UserAlreadyExists) <==>
      Present(username) && Present(email) && Present(password) &&
      ExistsWithEmailAndUsername(db.users, email.value, username.value)
    ensures res.1 == Err(Unhandled(ValidationError)) <==>
      && Present(username) && Present(email) && Present(password)
      && !ExistsWithEmailAndUsername(db.users, email.value, username.value)
      && !env.isEmail(email.value)
    ensures res.1 == Err(Unhandled(UniqueConstraintError)) <==>
      && Present(username) && Present(email) && Present(password)
      && !ExistsWithEmailAndUsername(db.users, email.value, username.value)
      && env.isEmail(email.value)
      && Taken(db.users, JsString.ToLower(username.value), email.value)
    ensures res.1.Ok? <==>
      && Present(username) && Present(email) && Present(password)
      && !ExistsWithEmailAndUsername(db.users, email.value, username.value)
      && env.isEmail(email.value)
      && !Taken(db.users, JsString.ToLower(username.value), email.value)
    ensures res.1.Ok? ==>
      && Present(username) && Present(email) && Present(password)
      && !Taken(db.users, JsString.ToLower(username.value), email.value)
      && env.isEmail(email.value)
      && res.0.nextId == db.nextId + 1
      && res.0.users == db.users[db.nextId := RegisteredRow(env, username.value, email.value, password.value, salt)]
      && res.1.value == Reply(201, Some(PublicView(db.nextId, res.0.users[db.nextId])), NoCookies)
  {
    if !(Present(username) && Present(email) && Present(password)) then
      (db, Err(AllFieldsRequired))
    else if ExistsWithEmailAndUsername(db.users, email.value, username.value) then
      (db, Err(UserAlreadyExists))
    else if !env.isEmail(email.value) then
      (db, Err(Unhandled(ValidationError)))
    else
      var row := RegisteredRow(env, username.value, email.value, password.value, salt);
      if Taken(db.users, row.username, row.email) then
        (db, Err(Unhandled(UniqueConstraintError)))
      else
        var db' := Db(db.users[db.nextId := row], db.nextId + 1);
        (db', Ok(Reply(201, Some(PublicView(db.nextId, row)), NoCookies)))
  }

  /**
   * `login`: the field check, the lookup by email, the password check, then the
   * issue of a token pair, both set as cookies.
   */
  ghost function LoginSpec(db: Db, env: Env, email: Option<string>, password: Option<string>, now: nat)
    : (res: (Db, Result<Reply, Failure>))
    ensures res.1.Err? ==> res.0 == db
    ensures res.1 == Err(AllFieldsRequired) <==> !(Present(email) && Present(password))
    ensures res.1 == Err(UserNotFound) <==>
      Present(email) && Present(password) && FindByEmail(db.users, email.value).None?
    ensures res.1 == Err(InvalidPassword) <==>
      && Present(email) && Present(password) && FindByEmail(db.users, email.value).Some?
      && !ComparePassword(env, db.users[FindByEmail(db.users, email.value).value], password.value)
    ensures res.1.Ok? <==>
      && Present(email) && Present(password) && FindByEmail(db.users, email.value).Some?
      && ComparePassword(env, db.users[FindByEmail(db.users, email.value).value], password.value)
    ensures res.1.Ok? ==> res.1.value.status == 200 && res.1.value.data.Some? && res.1.value.cookies.SetTokens?
    ensures res.1.Ok? ==>
      var id := res.1.value.data.value.id;
      && Present(email) && Present(password)
      && id in db.users && db.users[id].email == email.value
      && ComparePassword(env, db.users[id], password.value)
      && res.1.value.cookies == SetTokens(GenerateAccessToken(env, id, db.users[id], now),
                                          GenerateRefreshToken(env, id, db.users[id], now))
      && res.0 == Db(SetRefreshToken(db.users, id, Some(res.1.value.cookies.refreshToken)), db.nextId)
      && res.1.value.data.value == PublicView(id, res.0.users[id])
  {
    if !(Present(email) && Present(password)) then
      (db, Err(AllFieldsRequired))
    else
      match FindByEmail(db.users, email.value)
      case None => (db, Err(UserNotFound))
      case Some(id) =>
        if !ComparePassword(env, db.users[id], password.value) then
          (db, Err(InvalidPassword))
        else
          var (db', tokens) := IssueTokens(db, env, id, now);
          var loggedInUser := PublicView(id, db'.users[id]);
          (db', Ok(Reply(200, Some(loggedInUser), SetTokens(tokens.value.accessToken, tokens.value.refreshToken))))
  }

  /**
   * `refreshAccessToken`: the presence check, verification with the refresh
   * secret, the lookup of the token's subject, the comparison with the stored
   * refresh token, then rotation.
   */
  function RefreshAccessTokenSpec(db: Db, env: Env, presented: Option<Token>, now: nat)
    : (res: (Db, Result<Reply, Failure>))
    ensures res.1.Err? ==> res.0 == db
    ensures res.1 == Err(RefreshTokenRequired) <==> !Present(presented)
    ensures res.1 == Err(UserNotFound) <==>
      && Present(presented)
      && env.verify(presented.value, env.config.refreshTokenSecret, now).Ok?
      && env.verify(presented.value, env.config.refreshTokenSecret, now).value.id !in db.users
    ensures res.1 == Err(InvalidRefreshToken) <==>
      && Present(presented)
      && env.verify(presented.value, env.config.refreshTokenSecret, now).Ok?
      && var id := env.verify(presented.value, env.config.refreshTokenSecret, now).value.id;
         id in db.users && db.users[id].refreshToken != presented
    ensures res.1.Err? && res.1.error.Unhandled? <==>
      Present(presented) && env.verify(presented.value, env.config.refreshTokenSecret, now).Err?
    ensures res.1.Ok? <==>
      && Present(presented)
      && env.verify(presented.value, env.config.refreshTokenSecret, now).Ok?
      && var id := env.verify(presented.value, env.config.refreshTokenSecret, now).value.id;
         id in db.users && db.users[id].refreshToken == presented
    ensures res.1.Ok? ==> res.1.value.status == 200 && res.1.value.data.None? && res.1.value.cookies.SetTokens?
    ensures res.1.Ok? ==>
      && Present(presented)
      && env.verify(presented.value, env.config.refreshTokenSecret, now).Ok?
      && var id := env.verify(presented.value, env.config.refreshTokenSecret, now).value.id;
         && id in db.users
         && db.users[id].refreshToken == presented
         && res.1.value.cookies == SetTokens(GenerateAccessToken(env, id, db.users[id], now),
                                             GenerateRefreshToken(env, id, db.users[id], now))
         && res.0 == Db(SetRefreshToken(db.users, id, Some(res.1.value.cookies.refreshToken)), db.nextId)
  {
    if !Present(presented) then
      (db, Err(RefreshTokenRequired))
    else
      match env.verify(presented.value, env.config.refreshTokenSecret, now)
      case Err(message) => (db, Err(Unhandled(JwtError(message))))
      case Ok(decoded) =>
        if decoded.id !in db.users then
          (db, Err(UserNotFound))
        else if presented != db.users[decoded.id].refreshToken then
          (db, Err(InvalidRefreshToken))
        else
          var (db', tokens) := IssueTokens(db, env, decoded.id, now);
          (db', Ok(Reply(200, None, SetTokens(tokens.value.accessToken, tokens.value.refreshToken))))
  }

  /** `logoutUser` for the authenticated user `id`: the refresh-token column becomes null. */
  function LogoutSpec(db: Db, id: int): (res: (Db, Result<Reply, Failure>))
    ensures res.1 == Ok(Reply(200, None, ClearTokens))
    ensures res.0.nextId == db.nextId && res.0.users.Keys == db.users.Keys
    ensures id in db.users ==> res.0.users[id].refreshToken.None?
    ensures id in db.users ==> res.0.users[id] == db.users[id].(refreshToken := None)
    ensures forall k :: k in db.users && k != id ==> res.0.users[k] == db.users[k]
  {
    (Db(SetRefreshToken(db.users, id, None), db.nextId), Ok(Reply(200, None, ClearTokens)))
  }

  /** `getCurrentUser`: answers 200 with whatever the gate attached to the request. */
  function GetCurrentUser(requestUser: Option<PublicUser>): (r: Reply)
    ensures r.status == 200 && r.data == requestUser && r.cookies.NoCookies?
  {
    Reply(200, requestUser, NoCookies)
  }

  /** Rewriting a refresh token keeps the table invariant. */
  lemma SetRefreshTokenKeepsValid(db: Db, id: int, t: Option<Token>)
    requires ValidDb(db)
    ensures ValidDb(Db(SetRefreshToken(db.users, id, t), db.nextId))
  {
    var users' := SetRefreshToken(db.users, id, t);
    forall i, j | i in users' && j in users' && i != j
      ensures users'[i].username != users'[j].username && users'[i].email != users'[j].email
    {
      assert users'[i].username == db.users[i].username && users'[i].email == db.users[i].email;
      assert users'[j].username == db.users[j].username && users'[j].email == db.users[j].email;
    }
  }

  /** A successful registration keeps the table invariant. */
  lemma RegisterKeepsValid(db: Db, env: Env, username: Option<string>, email: Option<string>,
                           password: Option<string>, salt: nat)
    requires ValidDb(db)
    ensures ValidDb(RegisterUserSpec(db, env, username, email, password, salt).0)
  {
    var res := RegisterUserSpec(db, env, username, email, password, salt);
    if res.1.Ok? {
      var row := RegisteredRow(env, username.value, email.value, password.value, salt);
      JsString.ToLowerIdempotent(username.value);
      assert JsString.ToLower(row.username) == row.username;
      var users' := res.0.users;
      forall i, j | i in users' && j in users' && i != j
        ensures users'[i].username != users'[j].username && users'[i].email != users'[j].email
      {
        if i == db.nextId {
          assert j in db.users;
        } else if j == db.nextId {
          assert i in db.users;
        }
      }
    }
  }

  /** The users table as a mutable object: the handlers update it in place. */
  class UserStore {
    var users: map<int, User>
    var nextId: int

    /** The table as a value. */
    function State(): Db
      reads this
    {
      Db(users, nextId)
    }

    ghost predicate Valid()
      reads this
    {
      ValidDb(State())
    }

    /** An empty table; auto-increment keys start at 1. */
    constructor ()
      ensures Valid() && users == map[] && nextId == 1
    {
      users := map[];
      nextId := 1;
    }

    method GenerateAccessAndRefreshTokens(env: Env, id: int, now: nat) returns (tokens: Option<TokenPair>)
      requires Valid()
      modifies this
      ensures Valid()
      ensures (State(), tokens) == IssueTokens(old(State()), env, id, now)
    {
      if id !in users {
        return None;
      }
      var user := users[id];
      var accessToken := GenerateAccessToken(env, id, user, now);
      var refreshToken := GenerateRefreshToken(env, id, user, now);
      SetRefreshTokenKeepsValid(State(), id, Some(refreshToken));
      users := users[id := user.(refreshToken := Some(refreshToken))];
      tokens := Some(TokenPair(accessToken, refreshToken));
    }

    method RegisterUser(env: Env, username: Option<string>, email: Option<string>,
                        password: Option<string>, salt: nat) returns (r: Result<Reply, Failure>)
      requires Valid()
      modifies this
      ensures Valid()
      ensures (State(), r) == RegisterUserSpec(old(State()), env, username, email, password, salt)
    {
      RegisterKeepsValid(State(), env, username, email, password, salt);
      if !(Present(username) && Present(email) && Present(password)) {
        return Err(AllFieldsRequired);
      }
      if ExistsWithEmailAndUsername(users, email.value, username.value) {
        return Err(UserAlreadyExists);
      }
      var pending := new PendingUser(JsString.ToLower(username.value), email.value, password);
      if !env.isEmail(pending.email) {
        return Err(Unhandled(ValidationError));
      }
      pending.BeforeCreate(env, salt);
      if Taken(users, pending.username, pending.email) {
        return Err(Unhandled(UniqueConstraintError));
      }
      var id := nextId;
      users := users[id := NewUser(pending.username, pending.email, pending.password.value)];
      nextId := nextId + 1;
      var createdUser := PublicView(id, users[id]);
      r := Ok(Reply(201, Some(createdUser), NoCookies));
    }

    method Login(env: Env, email: Option<string>, password: Option<string>, now: nat)
      returns (r: Result<Reply, Failure>)
      requires Valid()
      modifies this
      ensures Valid()
      ensures (State(), r) == LoginSpec(old(State()), env, email, password, now)
    {
      if !(Present(email) && Present(password)) {
        return Err(AllFieldsRequired);
      }
      if !exists k :: k in users && users[k].email == email.value {
        return Err(UserNotFound);
      }
      var id :| id in users && users[id].email == email.value;
      assert FindByEmail(users, email.value) == Some(id);
      if !ComparePassword(env, users[id], password.value) {
        return Err(InvalidPassword);
      }
      var tokens := GenerateAccessAndRefreshTokens(env, id, now);
      var loggedInUser := PublicView(id, users[id]);
      r := Ok(Reply(200, Some(loggedInUser), SetTokens(tokens.value.accessToken, tokens.value.refreshToken)));
    }

    method RefreshAccessToken(env: Env, presented: Option<Token>, now: nat) returns (r: Result<Reply, Failure>)
      requires Valid()
      modifies this
      ensures Valid()
      ensures (State(), r) == RefreshAccessTokenSpec(old(State()), env, presented, now)
    {
      if !Present(presented) {
        return Err(RefreshTokenRequired);
      }
      var decoded := env.verify(presented.value, env.config.refreshTokenSecret, now);
      if decoded.Err? {
        return Err(Unhandled(JwtError(decoded.error)));
      }
      var id := decoded.value.id;
      if id !in users {
        return Err(UserNotFound);
      }
      if presented != users[id].refreshToken {
        return Err(InvalidRefreshToken);
      }
      var tokens := GenerateAccessAndRefreshTokens(env, id, now);
      r := Ok(Reply(200, None, SetTokens(tokens.value.accessToken, tokens.value.refreshToken)));
    }

    method LogoutUser(id: int) returns (r: Result<Reply, Failure>)
      requires Valid()
      modifies this
      ensures Valid()
      ensures (State(), r) == LogoutSpec(old(State()), id)
    {
      SetRefreshTokenKeepsValid(State(), id, None);
      if id in users {
        users := users[id := users[id].(refreshToken := None)];
      }
      r := Ok(Reply(200, None, ClearTokens));
    }
  }
}
