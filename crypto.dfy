/**
 * An ideal stand-in for bcrypt. A digest remembers nothing but which password
 * it was made from, so two digests compare equal exactly when their passwords
 * are equal. Salts, cost factors and one-wayness are not modelled.
 */
module Crypto {
  datatype Digest = Digest(preimage: string)

  /** `bcrypt.hash(password, salt)` with the salt abstracted away. */
  function HashPassword(password: string): Digest
  {
    Digest(password)
  }

  /** `bcrypt.compare(password, digest)`. */
  predicate Compare(password: string, digest: Digest)
  {
    digest.preimage == password
  }

  /** The only property of bcrypt the rest of the model relies on. */
  lemma CompareAgreesWithHash(password: string, original: string)
    ensures Compare(password, HashPassword(original)) <==> password == original
    ensures HashPassword(password) == HashPassword(original) <==> password == original
  {
  }
}
