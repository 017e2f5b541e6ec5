/**
 * `Bun.password.hash` / `Bun.password.verify`, idealised: hashing is
 * deterministic and a hash verifies exactly the password it was made from.
 * Salting and the cost of the hash are not modelled.
 */
module Passwords {

  datatype PasswordHash = Digest(secret: string)

  function Hash(password: string): PasswordHash
  {
    Digest(password)
  }

  /** `Bun.password.verify(password, hash)` */
  predicate Matches(password: string, hash: PasswordHash)
  {
    hash == Hash(password)
  }

  /** A hash verifies the password it was made from and no other. */
  lemma MatchesIffSame(password: string, original: string)
    ensures Matches(password, Hash(original)) <==> password == original
  {
  }
}
