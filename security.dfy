/**
 * The credential collaborator of src-tauri/src/utils.rs (`security::hash_str`,
 * `security::verify_password`). Argon2 with a random salt is not part of this model:
 * a digest reaches the model as a value, and verification as a function parameter.
 */
module Security {
  import opened Wrappers

  /** `argon2::Error` */
  datatype CryptoError = CryptoError

  /** `verify_password(hashed, password)` */
  type Verifier = (string, string) -> Result<bool, CryptoError>

  /**
   * What the repository's own tests demand of a digest of `plain`: it verifies against
   * `plain`, and not against `plain` with its last character removed.
   */
  ghost predicate SoundDigest(verify: Verifier, digest: string, plain: string): (r: bool)
    ensures r && |plain| > 0 ==> verify(digest, plain) != verify(digest, plain[..|plain| - 1])
  {
    && verify(digest, plain) == Ok(true)
    && (|plain| > 0 ==> verify(digest, plain[..|plain| - 1]) == Ok(false))
  }
}
