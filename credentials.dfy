/** Password hashing. The key-derivation function itself is not modelled: a
    digest is a symbolic term standing for the output of the hash on a
    password and a salt, and verification accepts exactly the password the
    digest was made from. */
module Credentials {

  /** The per-call random salt; randomness is a parameter of the model. */
  type Salt = nat

  datatype Digest = Bcrypt(salt: Salt, secret: string)

  /** `hash_password`: hash a plain-text password with a fresh salt. */
  function HashPassword(password: string, salt: Salt): (d: Digest)
    ensures d.salt == salt
  {
    Bcrypt(salt, password)
  }

  /** `verify_password`: whether a plain-text password matches a stored digest. */
  predicate VerifyPassword(plain: string, hashed: Digest) {
    hashed.secret == plain
  }

  /** The one property the handlers rely on: a password verifies against its own hash, whatever the salt. */
  lemma VerifyOwnHash(password: string, salt: Salt)
    ensures VerifyPassword(password, HashPassword(password, salt))
  {
  }

  /** A different password does not verify against the digest. */
  lemma WrongPasswordRejected(password: string, other: string, salt: Salt)
    requires other != password
    ensures !VerifyPassword(other, HashPassword(password, salt))
  {
  }
}
