/**
 * The cryptographic primitives the services rely on, taken as given:
 * SHA-256 over the key's UTF-8 bytes (from `MessageDigest`) and the AES
 * encryption pair (from EncryptionService).  They are parameters of the
 * model, not definitions; whatever is assumed of them is stated as a
 * hypothesis where it is used.
 */
module Crypto {

  /** A Java `byte`: signed, -128 to 127. */
  type JByte = b: int | -128 <= b < 128

  /** A SHA-256 digest: 32 bytes. */
  type Digest = d: seq<JByte> | |d| == 32 witness seq(32, _ => 0)

  datatype Primitives = Primitives(
    sha256: string -> Digest,
    encrypt: string -> string,
    decrypt: string -> string)

  /** The round-trip law of the AES pair under one fixed secret key: a
      hypothesis about the primitives, never derived. */
  ghost predicate DecryptInvertsEncrypt(p: Primitives)
  {
    forall s :: p.decrypt(p.encrypt(s)) == s
  }
}
