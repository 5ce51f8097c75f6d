/**
 * The boundary to the token library: the claims `generateToken` signs and the
 * outcomes `jwt.verify` can report. Signing and signature checking themselves
 * are not modelled; verification is an oracle the middleware is given.
 */
module Tokens {
  import opened Wrappers
  import opened ObjectIds

  /** The lifetime used when `JWT_EXPIRES_IN` is unset or empty. */
  const DefaultLifetime: string := "7d"

  /** The claims of an issued token: the user id and the configured lifetime. */
  datatype Token = Token(id: ObjectId, expiresIn: string)

  /** What `jwt.verify` reports: the decoded id, or the kind of error it threw. */
  datatype Verification =
    | Verified(id: ObjectId)
    | Malformed   // JsonWebTokenError
    | Expired     // TokenExpiredError
    | Failed      // any other error

  /** `process.env.JWT_EXPIRES_IN || '7d'`: an unset or empty setting falls back to seven days. */
  function Lifetime(configured: Option<string>): (e: string)
    ensures e != ""
    ensures configured.Some? && configured.value != "" ==> e == configured.value
  {
    if configured.Some? && configured.value != "" then configured.value else DefaultLifetime
  }

  /** `generateToken(id)`: a token whose only claim is the given id. */
  function GenerateToken(id: ObjectId, configured: Option<string>): (t: Token)
    ensures t.id == id && t.expiresIn == Lifetime(configured)
  {
    Token(id, Lifetime(configured))
  }

  /** Without configuration a token lives seven days. */
  lemma DefaultExpiry(id: ObjectId)
    ensures GenerateToken(id, None).expiresIn == "7d"
    ensures GenerateToken(id, Some("")).expiresIn == "7d"
  {
  }
}
