/**
 * The User record of the ORM model: its columns and defaults, the hook that
 * hashes the password before the row is created, and the instance methods that
 * compare a password and sign the two kinds of token.
 */
module UserModel {
  import opened Wrappers
  import opened Http
  import opened Crypto

  /**
   * A stored row. `username`, `email` and `password` are non-null columns;
   * `password` holds the bcrypt hash; the two token columns are nullable.
   */
  datatype User = User(
    username: string,
    email: string,
    password: string,
    accessToken: Option<Token>,
    refreshToken: Option<Token>)

  /** A row as read with `password` and `refreshToken` excluded. */
  datatype PublicUser = PublicUser(id: int, username: string, email: string, accessToken: Option<Token>)

  /** A new row: both token columns take their default, null. */
  function NewUser(username: string, email: string, passwordHash: string): (u: User)
    ensures u.accessToken.None? && u.refreshToken.None?
    ensures u.username == username && u.email == email && u.password == passwordHash
  {
    User(username, email, passwordHash, None, None)
  }

  /** The row `id` seen through the attribute exclusion: no password, no refresh token. */
  function PublicView(id: int, u: User): (p: PublicUser)
    ensures p.id == id && p.username == u.username && p.email == u.email
  {
    PublicUser(id, u.username, u.email, u.accessToken)
  }

  /** The password a row is created with once the `beforeCreate` hook has run. */
  function HashOnCreate(env: Env, password: Option<string>, salt: nat): Option<string> {
    if Present(password) then Some(env.hash(password.value, SaltRounds, salt)) else password
  }

  /** A model instance that is about to be inserted; the hook rewrites its password in place. */
  class PendingUser {
    var username: string
    var email: string
    var password: Option<string>

    constructor (username: string, email: string, password: Option<string>)
      ensures this.username == username && this.email == email && this.password == password
    {
      this.username := username;
      this.email := email;
      this.password := password;
    }

    /** The `beforeCreate` hook: a truthy password is replaced by its hash, any other is left alone. */
    method BeforeCreate(env: Env, salt: nat)
      modifies this
      ensures Present(old(password)) ==> password == Some(env.hash(old(password).value, SaltRounds, salt))
      ensures !Present(old(password)) ==> password == old(password)
      ensures username == old(username) && email == old(email)
    {
      if Present(password) {
        var hashed := env.hash(password.value, SaltRounds, salt);
        password := Some(hashed);
      }
    }
  }

  /** A password hashed on creation is accepted by bcrypt's comparison with the original. */
  lemma HashedPasswordVerifies(env: Env, username: string, email: string, password: string, salt: nat)
    requires HashSound(env)
    requires password != ""
    ensures HashOnCreate(env, Some(password), salt).Some?
    ensures ComparePassword(env, NewUser(username, email, HashOnCreate(env, Some(password), salt).value), password)
  {
    var h := env.hash(password, SaltRounds, salt);
    assert env.compare(password, h);
  }

  /** `comparePassword`: bcrypt's comparison of the candidate with the stored hash. */
  function ComparePassword(env: Env, u: User, candidate: string): (ok: bool)
    ensures HashSound(env) ==> forall salt :: u.password == env.hash(candidate, SaltRounds, salt) ==> ok
  {
    env.compare(candidate, u.password)
  }

  /** The payload of an access token: id, username and email. */
  function AccessClaims(id: int, u: User): (c: Claims)
    ensures c.id == id && c.username == u.username && c.email == Some(u.email)
  {
    Claims(id, u.username, Some(u.email))
  }

  /** The payload of a refresh token: id and username, no email. */
  function RefreshClaims(id: int, u: User): (c: Claims)
    ensures c.id == id && c.username == u.username && c.email.None?
  {
    Claims(id, u.username, None)
  }

  /** `generateAccessToken`: signed with the access secret and the access expiry. */
  function GenerateAccessToken(env: Env, id: int, u: User, now: nat): (t: Token)
    ensures t == env.sign(Claims(id, u.username, Some(u.email)),
                          env.config.accessTokenSecret, env.config.accessTokenExpiry, now)
  {
    env.sign(AccessClaims(id, u), env.config.accessTokenSecret, env.config.accessTokenExpiry, now)
  }

  /** `generateRefreshToken`: signed with the refresh secret and the refresh expiry. */
  function GenerateRefreshToken(env: Env, id: int, u: User, now: nat): (t: Token)
    ensures t == env.sign(Claims(id, u.username, None),
                          env.config.refreshTokenSecret, env.config.refreshTokenExpiry, now)
  {
    env.sign(RefreshClaims(id, u), env.config.refreshTokenSecret, env.config.refreshTokenExpiry, now)
  }

  /**
   * Token generation reads only the identity columns: two rows that agree on
   * username and email get the same tokens, whatever their password and token
   * columns hold; the refresh token does not even depend on the email.
   */
  lemma TokensReadIdentityOnly(env: Env, id: int, u: User, v: User, now: nat)
    requires u.username == v.username
    ensures GenerateRefreshToken(env, id, u, now) == GenerateRefreshToken(env, id, v, now)
    ensures u.email == v.email ==> GenerateAccessToken(env, id, u, now) == GenerateAccessToken(env, id, v, now)
  {
  }

  /** An access-token payload is never a refresh-token payload. */
  lemma AccessAndRefreshClaimsDiffer(id: int, u: User, id': int, v: User)
    ensures AccessClaims(id, u) != RefreshClaims(id', v)
  {
  }
}
