/**
 * The libraries the authentication code calls but whose internals are not
 * modelled: JSON Web Tokens (sign / verify), bcrypt (hash / compare) and the
 * ORM's e-mail validator. They enter the model as uninterpreted functions held
 * in an `Env`, together with the secrets and expiries read from the process
 * environment.
 */
module Crypto {
  import opened Wrappers

  type Token = string

  /** The payload of a signed token. Access tokens carry an email, refresh tokens do not. */
  datatype Claims = Claims(id: int, username: string, email: Option<string>)

  /** ACCESS_TOKEN_SECRET, ACCESS_TOKEN_EXPIRY, REFRESH_TOKEN_SECRET, REFRESH_TOKEN_EXPIRY. */
  datatype Config = Config(
    accessTokenSecret: string,
    accessTokenExpiry: string,
    refreshTokenSecret: string,
    refreshTokenExpiry: string)

  /**
   * `sign(claims, secret, expiresIn, issuedAt)` is jwt.sign at time `issuedAt`;
   * `verify(token, secret, at)` is jwt.verify on a request handled at time
   * `at`, with the signature and expiry checks inside it, failing with the
   * library's error message (for instance once the token has expired);
   * `hash(password, cost, salt)` and `compare(password, hash)` are bcrypt.
   */
  datatype Env = Env(
    config: Config,
    sign: (Claims, string, string, nat) -> Token,
    verify: (Token, string, nat) -> Result<Claims, string>,
    hash: (string, nat, nat) -> string,
    compare: (string, string) -> bool,
    isEmail: string -> bool)

  /** The bcrypt cost factor used when a password is stored. */
  const SaltRounds: nat := 10

  /** bcrypt accepts every password against a hash made from it. */
  ghost predicate HashSound(env: Env) {
    forall p, salt :: env.compare(p, env.hash(p, SaltRounds, salt))
  }
}
