/** Carrying the wrapped post-quantum secrets across a MEK rotation (src/lib/pqc-lifecycle.ts). */
module PqcLifecycle {
  import opened Wrappers
  import opened Text
  import opened Symbolic
  import opened VaultMeta

  /** Dead: this key's tag check failed. Anything else that goes wrong is thrown. */
  datatype RewrapResult = Rewrapped(secretWrapped: Column) | Dead

  function RewrapPqcSecretKey(oldKey: Key, newKey: Key, secret: Column, nonce: nat): Result<RewrapResult, CryptoError> {
    match Decrypt(secret, oldKey)
    case Success(plaintext) => Success(Rewrapped(Encrypt(plaintext, newKey, nonce)))
    case Failure(TagFailure) => Success(Dead)
    case Failure(e) => Failure(e)
  }

  datatype CarryError = WrapKeyMismatch | Transient(error: CryptoError) | UncorroboratedDead

  datatype Carried = Carried(newKemSecret: Option<Column>, newSigSecret: Option<Column>, pqcKeysReplaced: bool)

  datatype CarryOutcome = AbsentSecret | LiveSecret(secretWrapped: Column) | DeadSecret

  const PROBE: Bytes := AsciiBytes("orangerails-pqc-wrap-key-probe-v1")

  /** assertPqcWrapKeyMatchesSalt: a probe sealed under the expected key must open. */
  function ProbeOpens(wrapKey: Key, mek: Bytes, salt: Utf16, nonce: nat): bool {
    Decrypt(Encrypt(PROBE, PqcWrapKey(mek, salt), nonce), wrapKey) == Success(PROBE)
  }

  function CarryOne(oldKey: Key, newKey: Key, secret: Option<Column>, nonce: nat): Result<CarryOutcome, CarryError> {
    if !Stored(secret) then Success(AbsentSecret)
    else match RewrapPqcSecretKey(oldKey, newKey, secret.value, nonce)
      case Failure(e) => Failure(Transient(e))
      case Success(Rewrapped(c)) => Success(LiveSecret(c))
      case Success(Dead) => Success(DeadSecret)
  }

  function NewSecret(o: CarryOutcome): Option<Column> {
    if o.LiveSecret? then Some(o.secretWrapped) else None
  }

  /** carryPqcSecretsAcrossRotation, with the nonces it drew */
  function CarryPqcSecrets(
    oldKey: Key, newKey: Key, oldMek: Bytes, salt: Utf16,
    kem: Option<Column>, sig: Option<Column>, nonce: nat): Result<Carried, CarryError>
  {
    if !ProbeOpens(oldKey, oldMek, salt, nonce) then Failure(WrapKeyMismatch)
    else
      var kemOutcome :- CarryOne(oldKey, newKey, kem, nonce + 1);
      var sigOutcome :- CarryOne(oldKey, newKey, sig, nonce + 2);
      if kemOutcome.DeadSecret? && !sigOutcome.LiveSecret? then Failure(UncorroboratedDead)
      else if sigOutcome.DeadSecret? && !kemOutcome.LiveSecret? then Failure(UncorroboratedDead)
      else
        var replaced := kemOutcome.DeadSecret? || sigOutcome.DeadSecret?;
        Success(Carried(NewSecret(kemOutcome), NewSecret(sigOutcome), replaced))
  }

  predicate Opens(secret: Option<Column>, key: Key) {
    Stored(secret) && Decrypt(secret.value, key).Success?
  }

  predicate IsDead(secret: Option<Column>, key: Key) {
    Stored(secret) && Decrypt(secret.value, key) == Failure(TagFailure)
  }

  /** Re-sealed with its plaintext unchanged when it opens, otherwise not carried. */
  predicate CarriedExactly(secret: Option<Column>, carried: Option<Column>, oldKey: Key, newKey: Key) {
    && (carried.Some? <==> Opens(secret, oldKey))
    && (carried.Some? ==> Resealed(secret.value, carried.value, oldKey, newKey))
  }

  /**
   * The carry returns exactly when the key is the one the salt yields, every
   * stored secret opens or is dead, and a dead one has a sibling that opens.
   */
  lemma CarryReturnsIff(
    oldKey: Key, newKey: Key, oldMek: Bytes, salt: Utf16, kem: Option<Column>, sig: Option<Column>, nonce: nat)
    ensures CarryPqcSecrets(oldKey, newKey, oldMek, salt, kem, sig, nonce).Success? <==>
            && oldKey == PqcWrapKey(oldMek, salt)
            && (Stored(kem) ==> Opens(kem, oldKey) || (IsDead(kem, oldKey) && Opens(sig, oldKey)))
            && (Stored(sig) ==> Opens(sig, oldKey) || (IsDead(sig, oldKey) && Opens(kem, oldKey)))
  {
  }

  lemma CarryIsExact(
    oldKey: Key, newKey: Key, oldMek: Bytes, salt: Utf16, kem: Option<Column>, sig: Option<Column>, nonce: nat)
    requires CarryPqcSecrets(oldKey, newKey, oldMek, salt, kem, sig, nonce).Success?
    ensures var carried := CarryPqcSecrets(oldKey, newKey, oldMek, salt, kem, sig, nonce).value;
            && CarriedExactly(kem, carried.newKemSecret, oldKey, newKey)
            && CarriedExactly(sig, carried.newSigSecret, oldKey, newKey)
            && (carried.pqcKeysReplaced <==> IsDead(kem, oldKey) || IsDead(sig, oldKey))
  {
  }

  predicate IsMalformed(secret: Option<Column>, key: Key) {
    Stored(secret) && Decrypt(secret.value, key) == Failure(Malformed)
  }

  /**
   * How the carry fails: a wrong wrap key is named before any secret is opened, and a
   * secret that cannot be tried stops it before a dead one without a sibling that opens.
   */
  lemma CarryFailsAs(
    oldKey: Key, newKey: Key, oldMek: Bytes, salt: Utf16, kem: Option<Column>, sig: Option<Column>, nonce: nat)
    ensures var carried := CarryPqcSecrets(oldKey, newKey, oldMek, salt, kem, sig, nonce);
            var rightKey := oldKey == PqcWrapKey(oldMek, salt);
            var malformed := IsMalformed(kem, oldKey) || IsMalformed(sig, oldKey);
            && (carried == Failure(WrapKeyMismatch) <==> !rightKey)
            && (carried == Failure(Transient(Malformed)) <==> rightKey && malformed)
            && (carried == Failure(UncorroboratedDead) <==>
                  && rightKey && !malformed
                  && ((IsDead(kem, oldKey) && !Opens(sig, oldKey)) || (IsDead(sig, oldKey) && !Opens(kem, oldKey))))
  {
  }

  /** The check migrateAndPersistRotatedVault makes before it touches a row. */
  predicate RotationRefused(row: MetaRow, newKem: Option<Column>, newSig: Option<Column>) {
    (row.kemSecret.Some? && newKem.None?) || (row.sigSecret.Some? && newSig.None?)
  }

  /**
   * A recovery that drops a dead secret is refused by that check, although its
   * comments say it succeeds: while the stored secrets are the ones read, the
   * check passes exactly when nothing was dropped and no column is an empty string.
   */
  lemma DroppedSecretRefused(row: MetaRow, oldKey: Key, newKey: Key, oldMek: Bytes, salt: Utf16, nonce: nat)
    requires CarryPqcSecrets(oldKey, newKey, oldMek, salt, row.kemSecret, row.sigSecret, nonce).Success?
    ensures var carried := CarryPqcSecrets(oldKey, newKey, oldMek, salt, row.kemSecret, row.sigSecret, nonce).value;
            RotationRefused(row, carried.newKemSecret, carried.newSigSecret) <==>
            carried.pqcKeysReplaced || row.kemSecret == Some(Plain([])) || row.sigSecret == Some(Plain([]))
  {
  }

  /** One dead secret beside a live one: the carry returns and the rotation is refused. */
  lemma OneDeadSecretExample(row: MetaRow, mek: Bytes, newMek: Bytes, other: Bytes, nonce: nat)
    requires other != mek
    requires row.kemSecret == Some(Encrypt([1], PqcWrapKey(other, row.salt), 0))
    requires row.sigSecret == Some(Encrypt([2], PqcWrapKey(mek, row.salt), 1))
    ensures var carried := CarryPqcSecrets(PqcWrapKey(mek, row.salt), PqcWrapKey(newMek, row.salt), mek, row.salt,
                                           row.kemSecret, row.sigSecret, nonce);
            && carried.Success? && carried.value.pqcKeysReplaced
            && RotationRefused(row, carried.value.newKemSecret, carried.value.newSigSecret)
  {
  }
}
