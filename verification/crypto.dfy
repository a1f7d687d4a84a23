/** The two foreign libraries the core calls, as values the caller supplies:
    bcrypt (hash and compare) and jsonwebtoken (sign and verify). Only the
    round trips the core relies on are stated about them. */
module Crypto {
  import opened Base

  /** `bcrypt.hashSync(password, 10)` and `bcrypt.compare(password, hash)`. */
  datatype Hasher = Hasher(hash: string -> string, compare: (string, string) -> bool)

  /** A password always matches its own hash. */
  ghost predicate HashRoundTrip(h: Hasher)
  {
    forall password :: h.compare(password, h.hash(password))
  }

  type Token = string

  /** The payload and options passed to `jsonwebtoken.sign`: `{ userId }`,
      `subject` and `expiresIn`. */
  datatype Claims = Claims(userId: Id, subject: Id, expiresIn: string)

  /** What `jsonwebtoken.verify` does with a token: throws (bad signature,
      expired, malformed), or returns a payload whose `sub` may be missing. */
  datatype Decoded = Rejected | Verified(sub: Option<string>)

  /** `jsonwebtoken.sign` and `jsonwebtoken.verify` with the server's secret. */
  datatype Jwt = Jwt(sign: Claims -> Token, verify: Token -> Decoded)

  /** A token the server signed verifies, within its validity window, to its
      subject. The clock is not modelled, so neither is expiry. */
  ghost predicate SignRoundTrip(j: Jwt)
  {
    forall c :: j.verify(j.sign(c)) == Verified(Some(c.subject))
  }
}
