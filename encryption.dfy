/**
 * The key-name and value transforms, as opaque collaborators. Each is a pair of
 * functions; which algorithm they implement is not modelled, only whether
 * decryption undoes encryption.
 */
module Encryption {
  import opened Elements

  datatype KeyEncryption = KeyEncryption(encrypt: string -> string, decrypt: string -> string) {
    /** Decrypting an encrypted name gives the name back. */
    ghost predicate Reversible() {
      forall name: string :: decrypt(encrypt(name)) == name
    }
  }

  /**
   * The value transform. A transform that embeds a random IV is represented by
   * the one ciphertext it happens to produce for each payload.
   */
  datatype ValueEncryption = ValueEncryption(encrypt: Bytes -> Bytes, decrypt: Bytes -> Bytes) {
    /** Decrypting an encrypted payload gives the payload back. */
    ghost predicate Reversible() {
      forall content: Bytes :: decrypt(encrypt(content)) == content
    }
  }

  /** A reversible key transform never maps two names to one stored name. */
  lemma EncryptInjective(keys: KeyEncryption, a: string, b: string)
    requires keys.Reversible()
    ensures keys.encrypt(a) == keys.encrypt(b) <==> a == b
  {
    if keys.encrypt(a) == keys.encrypt(b) {
      assert keys.decrypt(keys.encrypt(a)) == a;
      assert keys.decrypt(keys.encrypt(b)) == b;
    }
  }
}
