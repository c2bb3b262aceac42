/**
 * The password hasher (bcrypt with a fixed cost factor), taken as an ideal
 * one-way function. The random salt that `bcrypt.hash` draws is a parameter,
 * so two hashes of one password may differ, yet each verifies only against
 * the password it was made from.
 */
module Crypto {

  /** Cost factor passed to every `bcrypt.hash` call. */
  const SALT_ROUNDS: nat := 10

  /** A stored password hash; its parts are never read except by `Compare`. */
  datatype Digest = Digest(secret: string, salt: nat, rounds: nat)

  /** `bcrypt.hash(password, SALT_ROUNDS)` with the salt it drew. */
  function Hash(password: string, salt: nat): (d: Digest)
    ensures d.rounds == SALT_ROUNDS
    ensures Compare(password, d)
    ensures forall other :: Compare(other, d) <==> other == password
  {
    Digest(password, salt, SALT_ROUNDS)
  }

  /** `bcrypt.compare(password, hash)`. */
  predicate Compare(password: string, d: Digest)
  {
    password == d.secret
  }
}
