/**
 Password hashing. The service hashes with bcrypt and checks a login with
 bcrypt's verify. Neither algorithm is modelled: a `Hasher` is an arbitrary
 pair of functions, and the one fact the service relies on is that a
 password verifies against any hash produced from it.
 */
module Passwords {

  datatype Hasher = Hasher(hash: string -> string, verify: (string, string) -> bool)

  /** The correctness property of a hash/verify pair. */
  ghost predicate Sound(h: Hasher)
  {
    forall p :: h.verify(p, h.hash(p))
  }
}
