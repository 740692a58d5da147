/**
 * Cryptography as terms. A sealed column opens only under the key and the
 * associated data it was sealed with; key derivation is injective.
 */
module Symbolic {
  import opened Wrappers
  import opened Text
  import Base64

  /** The HKDF context strings of src/lib/key-derivation.ts. */
  datatype Context = Credentials | Transactions | Verifier | PqcSecretWrap | KeyringWrap

  datatype Key =
    | Subkey(mek: Bytes, context: Context, salt: Utf16)
    | PasswordKek(password: Utf16, salt: Utf16)
    | RecoveryKek(code: Utf16)
    | RawKey(bytes: Bytes)

  /** A text column: base64 of IV, ciphertext and tag, or any other text. */
  datatype Column =
    | Plain(text: Utf16)
    | Sealed(key: Key, aad: Bytes, plaintext: Bytes, nonce: nat)

  /** Malformed: atob threw or the bytes are too few. TagFailure: GCM refused. */
  datatype CryptoError = Malformed | TagFailure

  const IV_AND_TAG_BYTES: nat := 12 + 16

  function OpenWith(c: Column, key: Key, aad: Bytes): Result<Bytes, CryptoError> {
    match c
    case Plain(text) =>
      var length := Base64.AtobLength(text);
      if length.None? || length.value < IV_AND_TAG_BYTES then Failure(Malformed) else Failure(TagFailure)
    case Sealed(k, a, plaintext, _) =>
      if k == key && a == aad then Success(plaintext) else Failure(TagFailure)
  }

  /** A nullable column that JavaScript finds truthy: neither null nor the empty string. */
  predicate Stored(c: Option<Column>) {
    c.Some? && c.value != Plain([])
  }

  /** decryptString */
  function Decrypt(c: Column, key: Key): Result<Bytes, CryptoError> {
    OpenWith(c, key, [])
  }

  /** encryptString, with the nonce it drew */
  function Encrypt(plaintext: Bytes, key: Key, nonce: nat): Column {
    Sealed(key, [], plaintext, nonce)
  }

  /** after holds the plaintext of before, moved from one key to another. */
  predicate Resealed(before: Column, after: Column, oldKey: Key, newKey: Key) {
    && Decrypt(before, oldKey).Success?
    && Decrypt(after, newKey) == Decrypt(before, oldKey)
  }
}
