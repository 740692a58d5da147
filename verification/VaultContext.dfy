/** The key state of an open tab, and what it builds (src/context/VaultContext.tsx). */
module VaultContext {
  import opened Wrappers
  import opened Text
  import opened Symbolic
  import opened VaultMeta
  import PqcLifecycle

  datatype VaultError =
    | WrongCode
    | WrongPassword
    | CodeDoesNotMatch
    | WeakPassword
    | LegacyVault
    | NoMigrationKeys
    | CannotDecrypt(error: CryptoError)
    | CarryFailed(carry: PqcLifecycle.CarryError)

  /** What a recovery returns to the page that persists it. */
  datatype RecoveryResult = RecoveryResult(
    newEncMek: Column,
    newRecovery: Column,
    newVerifier: Column,
    newKemSecret: Option<Column>,
    newSigSecret: Option<Column>,
    pqcKeysReplaced: bool)

  datatype PasswordChange = PasswordChange(newEncMek: Column, newRecovery: Column)

  const CURRENT_VAULT_KEY_VERSION: nat := 2

  function CredentialsKey(mek: Bytes, salt: Utf16): Key { Subkey(mek, Credentials, salt) }

  function TransactionsKey(mek: Bytes, salt: Utf16): Key { Subkey(mek, Transactions, salt) }

  /** The request recover.tsx has migrateAndPersistRotatedVault write. */
  function RotateRequest(prior: Column, result: RecoveryResult): Request {
    Rotate(prior, result.newEncMek, result.newRecovery, result.newVerifier, CURRENT_VAULT_KEY_VERSION,
           result.newKemSecret, result.newSigSecret)
  }

  function RewrapRequest(prior: Column, change: PasswordChange): Request {
    Rewrap(prior, change.newEncMek, change.newRecovery)
  }

  /** The MEK that a password reaches through a version 2 row; None when unlock fails. */
  function Unlocked(row: MetaRow, password: Utf16): Option<Bytes> {
    match Decrypt(row.encMek, PasswordKek(password, row.salt))
    case Failure(_) => None
    case Success(mek) => if Verifies(row.verifier, mek, row.salt) then Some(mek) else None
  }

  /** unlock reads the envelope of a version 2 row; before that the MEK came from the password alone. */
  predicate HasEnvelope(row: MetaRow) {
    row.keyVersion >= 2 && Stored(Some(row.encMek))
  }

  /** The MEK of any row; legacyMek is what Argon2id makes of the password and the salt. */
  function UnlockedAny(row: MetaRow, password: Utf16, legacyMek: Bytes): Option<Bytes> {
    if HasEnvelope(row) then Unlocked(row, password)
    else if Verifies(row.verifier, legacyMek, row.salt) then Some(legacyMek)
    else None
  }

  /** The MEK that a recovery code reaches. */
  function Recovered(row: MetaRow, code: Utf16): Option<Bytes> {
    match Decrypt(row.recovery, RecoveryKek(code))
    case Failure(_) => None
    case Success(mek) => if Verifies(row.verifier, mek, row.salt) then Some(mek) else None
  }

  class VaultContext {
    var mek: Option<Bytes>
    var salt: Option<Utf16>
    var migrationOldCredentialsKey: Option<Key>
    var migrationOldTransactionsKey: Option<Key>

    /** Each nonce this tab draws for row and secret ciphertexts is a new one. */
    var nextNonce: nat

    constructor ()
      ensures mek.None? && salt.None? && migrationOldCredentialsKey.None? && migrationOldTransactionsKey.None?
    {
      mek, salt, migrationOldCredentialsKey, migrationOldTransactionsKey, nextNonce := None, None, None, None, 0;
    }

    /** unlock */
    method Unlock(row: MetaRow, password: Utf16, legacyMek: Bytes) returns (ok: bool)
      modifies this`mek, this`salt
      ensures ok <==> UnlockedAny(row, password, legacyMek).Some?
      ensures mek == if ok then UnlockedAny(row, password, legacyMek) else old(mek)
      ensures salt == if ok then Some(row.salt) else old(salt)
    {
      var candidate: Bytes;
      if HasEnvelope(row) {
        var unwrapped := Decrypt(row.encMek, PasswordKek(password, row.salt));
        if unwrapped.Failure? {
          return false;
        }
        candidate := unwrapped.value;
      } else {
        candidate := legacyMek;
      }
      if !Verifies(row.verifier, candidate, row.salt) {
        return false;
      }
      mek, salt := Some(candidate), Some(row.salt);
      ok := true;
    }

    /**
     * recoverWithCode. The new MEK, the new code and the two envelope nonces are
     * the random values it draws.
     */
    method RecoverWithCode(
      row: MetaRow, code: Utf16, newPassword: Utf16,
      newMek: Bytes, newCode: Utf16, mekNonce: nat, recoveryNonce: nat)
      returns (r: Result<RecoveryResult, VaultError>)
      modifies this
      ensures r.Success? <==> Recovered(row, code).Some? && SecretsCarriable(row, Recovered(row, code).value)
      ensures r.Success? ==>
                var oldMek := Recovered(row, code).value;
                && BuiltFrom(row, RotateRequest(row.recovery, r.value))
                && r.value.newEncMek == Encrypt(newMek, PasswordKek(newPassword, row.salt), mekNonce)
                && r.value.newRecovery == Encrypt(newMek, RecoveryKek(newCode), recoveryNonce)
                && mek == Some(newMek) && salt == Some(row.salt)
                && migrationOldCredentialsKey == Some(CredentialsKey(oldMek, row.salt))
                && migrationOldTransactionsKey == Some(TransactionsKey(oldMek, row.salt))
      ensures r.Success? ==> SecretsCarried(row, RotateRequest(row.recovery, r.value), Recovered(row, code).value)
      ensures r.Success? ==>
                var oldKey := PqcWrapKey(Recovered(row, code).value, row.salt);
                r.value.pqcKeysReplaced <==>
                  PqcLifecycle.IsDead(row.kemSecret, oldKey) || PqcLifecycle.IsDead(row.sigSecret, oldKey)
      ensures r.Failure? ==> mek == old(mek) && salt == old(salt)
      ensures r == Failure(WrongCode) <==> Decrypt(row.recovery, RecoveryKek(code)).Failure?
      ensures r == Failure(CodeDoesNotMatch) <==>
                Decrypt(row.recovery, RecoveryKek(code)).Success? && Recovered(row, code).None?
      ensures r.Failure? && Recovered(row, code).Some? ==>
                var oldMek := Recovered(row, code).value;
                && Carry(row, oldMek, newMek, old(nextNonce)).Failure?
                && r.error == CarryFailed(Carry(row, oldMek, newMek, old(nextNonce)).error)
                && migrationOldCredentialsKey == Some(CredentialsKey(oldMek, row.salt))
                && migrationOldTransactionsKey == Some(TransactionsKey(oldMek, row.salt))
      ensures r.Failure? && Recovered(row, code).None? ==>
                && migrationOldCredentialsKey == old(migrationOldCredentialsKey)
                && migrationOldTransactionsKey == old(migrationOldTransactionsKey)
    {
      var unwrapped := Decrypt(row.recovery, RecoveryKek(code));
      if unwrapped.Failure? {
        return Failure(WrongCode);
      }
      var oldMek := unwrapped.value;
      if !Verifies(row.verifier, oldMek, row.salt) {
        return Failure(CodeDoesNotMatch);
      }
      migrationOldCredentialsKey := Some(CredentialsKey(oldMek, row.salt));
      migrationOldTransactionsKey := Some(TransactionsKey(oldMek, row.salt));
      PqcLifecycle.CarryReturnsIff(PqcWrapKey(oldMek, row.salt), PqcWrapKey(newMek, row.salt), oldMek, row.salt,
                                   row.kemSecret, row.sigSecret, nextNonce);
      var carried := Carry(row, oldMek, newMek, nextNonce);
      if carried.Failure? {
        return Failure(CarryFailed(carried.error));
      }
      PqcLifecycle.CarryIsExact(PqcWrapKey(oldMek, row.salt), PqcWrapKey(newMek, row.salt), oldMek, row.salt,
                                row.kemSecret, row.sigSecret, nextNonce);
      var newVerifier := Encrypt(VERIFIER_PLAINTEXT, VerifierKey(newMek, row.salt), nextNonce + 3);
      nextNonce := nextNonce + 4;
      var newEncMek := Encrypt(newMek, PasswordKek(newPassword, row.salt), mekNonce);
      var newRecovery := Encrypt(newMek, RecoveryKek(newCode), recoveryNonce);
      mek, salt := Some(newMek), Some(row.salt);
      var kept := carried.value;
      r := Success(RecoveryResult(newEncMek, newRecovery, newVerifier,
                                  kept.newKemSecret, kept.newSigSecret, kept.pqcKeysReplaced));
    }

    /** changeVaultPassword; strong is the verdict of isPasswordAcceptable. */
    method ChangeVaultPassword(
      row: MetaRow, currentPassword: Utf16, newPassword: Utf16, strong: bool,
      newCode: Utf16, mekNonce: nat, recoveryNonce: nat)
      returns (r: Result<PasswordChange, VaultError>)
      modifies this`mek
      ensures r.Success? <==> strong && HasEnvelope(row) && Unlocked(row, currentPassword).Some?
      ensures r.Success? ==>
                var kept := Unlocked(row, currentPassword).value;
                && BuiltFrom(row, RewrapRequest(row.encMek, r.value))
                && r.value.newEncMek == Encrypt(kept, PasswordKek(newPassword, row.salt), mekNonce)
                && r.value.newRecovery == Encrypt(kept, RecoveryKek(newCode), recoveryNonce)
                && mek == Some(kept)
      ensures r.Failure? ==> mek == old(mek)
      ensures r == Failure(WeakPassword) <==> !strong
      ensures r == Failure(LegacyVault) <==> strong && !HasEnvelope(row)
      ensures r == Failure(WrongPassword) <==>
                strong && HasEnvelope(row) && Unlocked(row, currentPassword).None?
    {
      if !strong {
        return Failure(WeakPassword);
      }
      if !HasEnvelope(row) {
        return Failure(LegacyVault);
      }
      var unwrapped := Decrypt(row.encMek, PasswordKek(currentPassword, row.salt));
      if unwrapped.Failure? || !Verifies(row.verifier, unwrapped.value, row.salt) {
        return Failure(WrongPassword);
      }
      var newKek, newRecoveryKek := PasswordKek(newPassword, row.salt), RecoveryKek(newCode);
      var newEncMek := Encrypt(unwrapped.value, newKek, mekNonce);
      var newRecovery := Encrypt(unwrapped.value, newRecoveryKek, recoveryNonce);
      if Decrypt(newEncMek, newKek) != Success(unwrapped.value) ||
         Decrypt(newRecovery, newRecoveryKek) != Success(unwrapped.value)
      {
        assert false;
      }
      mek := Some(unwrapped.value);
      r := Success(PasswordChange(newEncMek, newRecovery));
    }

    /** migrateCredentialsCiphertext */
    method MigrateCredentialsCiphertext(c: Column) returns (r: Result<Column, VaultError>)
      modifies this`nextNonce
      ensures r.Success? <==>
                && migrationOldCredentialsKey.Some? && mek.Some? && salt.Some?
                && Decrypt(c, migrationOldCredentialsKey.value).Success?
      ensures r.Success? ==>
                Resealed(c, r.value, migrationOldCredentialsKey.value, CredentialsKey(mek.value, salt.value))
      ensures r == Failure(NoMigrationKeys) <==> migrationOldCredentialsKey.None? || mek.None? || salt.None?
    {
      if migrationOldCredentialsKey.None? || mek.None? || salt.None? {
        return Failure(NoMigrationKeys);
      }
      var unwrapped := Decrypt(c, migrationOldCredentialsKey.value);
      if unwrapped.Failure? {
        return Failure(CannotDecrypt(unwrapped.error));
      }
      r := Success(Encrypt(unwrapped.value, CredentialsKey(mek.value, salt.value), nextNonce));
      nextNonce := nextNonce + 1;
    }

    /** migrateTransactionCiphertext */
    method MigrateTransactionCiphertext(c: Column) returns (r: Result<Column, VaultError>)
      modifies this`nextNonce
      ensures r.Success? <==>
                && migrationOldTransactionsKey.Some? && mek.Some? && salt.Some?
                && Decrypt(c, migrationOldTransactionsKey.value).Success?
      ensures r.Success? ==>
                Resealed(c, r.value, migrationOldTransactionsKey.value, TransactionsKey(mek.value, salt.value))
      ensures r == Failure(NoMigrationKeys) <==> migrationOldTransactionsKey.None? || mek.None? || salt.None?
    {
      if migrationOldTransactionsKey.None? || mek.None? || salt.None? {
        return Failure(NoMigrationKeys);
      }
      var unwrapped := Decrypt(c, migrationOldTransactionsKey.value);
      if unwrapped.Failure? {
        return Failure(CannotDecrypt(unwrapped.error));
      }
      r := Success(Encrypt(unwrapped.value, TransactionsKey(mek.value, salt.value), nextNonce));
      nextNonce := nextNonce + 1;
    }

    method ClearMigrationKeys()
      modifies this`migrationOldCredentialsKey, this`migrationOldTransactionsKey
      ensures migrationOldCredentialsKey.None? && migrationOldTransactionsKey.None?
    {
      migrationOldCredentialsKey, migrationOldTransactionsKey := None, None;
    }

    method Lock()
      modifies this`mek, this`salt
      ensures mek.None? && salt.None?
    {
      mek, salt := None, None;
    }
  }

  /** The carry of a recovery, on the keys it derives. */
  function Carry(row: MetaRow, oldMek: Bytes, newMek: Bytes, nonce: nat)
    : Result<PqcLifecycle.Carried, PqcLifecycle.CarryError>
  {
    PqcLifecycle.CarryPqcSecrets(PqcWrapKey(oldMek, row.salt), PqcWrapKey(newMek, row.salt), oldMek, row.salt,
                                 row.kemSecret, row.sigSecret, nonce)
  }

  /** Every stored secret opens under the old MEK, or is dead beside one that opens. */
  predicate SecretsCarriable(row: MetaRow, oldMek: Bytes) {
    var key := PqcWrapKey(oldMek, row.salt);
    && (Stored(row.kemSecret) ==>
          PqcLifecycle.Opens(row.kemSecret, key) ||
          (PqcLifecycle.IsDead(row.kemSecret, key) && PqcLifecycle.Opens(row.sigSecret, key)))
    && (Stored(row.sigSecret) ==>
          PqcLifecycle.Opens(row.sigSecret, key) ||
          (PqcLifecycle.IsDead(row.sigSecret, key) && PqcLifecycle.Opens(row.kemSecret, key)))
  }

  /** The request carries each secret exactly when the stored one opens, unchanged. */
  predicate SecretsCarried(row: MetaRow, r: Request, oldMek: Bytes)
    requires r.Rotate? && r.encMek.Sealed?
  {
    var oldKey, newKey := PqcWrapKey(oldMek, row.salt), PqcWrapKey(r.encMek.plaintext, row.salt);
    && PqcLifecycle.CarriedExactly(row.kemSecret, r.kemSecret, oldKey, newKey)
    && PqcLifecycle.CarriedExactly(row.sigSecret, r.sigSecret, oldKey, newKey)
  }

  /**
   * A password unlocks a vault of version 2 exactly when its envelope was sealed
   * for that password, and to its one MEK; before that, exactly when the
   * verifier accepts what Argon2id made of the password.
   */
  lemma UnlocksIff(row: MetaRow, password: Utf16, legacyMek: Bytes)
    requires OneMek(row)
    ensures HasEnvelope(row) <==> row.keyVersion >= 2
    ensures var unlocked := UnlockedAny(row, password, legacyMek);
            if row.keyVersion >= 2
            then unlocked == if row.encMek.key == PasswordKek(password, row.salt) then Some(MekOf(row)) else None
            else unlocked == if row.verifier.key == VerifierKey(legacyMek, row.salt) then Some(legacyMek) else None
  {
  }

  /** Before version 2 there is no envelope: unlocking asks the verifier alone. */
  lemma LegacyUnlocksIff(row: MetaRow, password: Utf16, legacyMek: Bytes)
    requires row.keyVersion < 2 || row.encMek == Plain([])
    ensures var verifier := row.verifier;
            UnlockedAny(row, password, legacyMek) ==
              if && verifier.Sealed? && verifier.key == VerifierKey(legacyMek, row.salt)
                 && verifier.aad == [] && verifier.plaintext == VERIFIER_PLAINTEXT
              then Some(legacyMek) else None
  {
  }

  /** An envelope that holds another MEK than the one the verifier was made with opens for nobody. */
  lemma VerifierDecides(row: MetaRow, mek: Bytes, password: Utf16, code: Utf16)
    requires row.verifier.Sealed? && row.verifier.key == VerifierKey(mek, row.salt)
    ensures Unlocked(row, password).Some? ==>
              Unlocked(row, password) == Some(mek) && row.encMek.Sealed? && row.encMek.plaintext == mek
    ensures Recovered(row, code).Some? ==>
              Recovered(row, code) == Some(mek) && row.recovery.Sealed? && row.recovery.plaintext == mek
  {
  }

  /** A row that holds one MEK gives it, and only it, to whoever can open an envelope. */
  lemma OneMekOpensAlike(row: MetaRow, password: Utf16, code: Utf16)
    requires OneMek(row)
    ensures Unlocked(row, password).Some? ==> Unlocked(row, password) == Some(MekOf(row))
    ensures Recovered(row, code).Some? ==> Recovered(row, code) == Some(MekOf(row))
    ensures row.encMek.key == PasswordKek(password, row.salt) ==> Unlocked(row, password).Some?
    ensures row.recovery.key == RecoveryKek(code) ==> Recovered(row, code).Some?
  {
  }

  /** Right after a recovery's write the new password and code open the vault, and the old code does not. */
  lemma RotatedVaultOpens(
    before: MetaRow, r: Request, newMek: Bytes, password: Utf16, code: Utf16, mekNonce: nat, recoveryNonce: nat,
    oldCode: Utf16)
    requires OneMek(before) && r.Rotate? && WellBuilt(r, before.salt) && Matches(before, r)
    requires r.encMek == Encrypt(newMek, PasswordKek(password, before.salt), mekNonce)
    requires r.recovery == Encrypt(newMek, RecoveryKek(code), recoveryNonce)
    ensures var after := Apply(before, r);
            && Unlocked(after, password) == Some(newMek)
            && Recovered(after, code) == Some(newMek)
            && (oldCode != code ==> Recovered(after, oldCode).None?)
  {
  }

  /** Right after a password change the same MEK opens with the new password and code. */
  lemma RewrappedVaultOpens(
    before: MetaRow, r: Request, password: Utf16, code: Utf16, mekNonce: nat, recoveryNonce: nat)
    requires OneMek(before) && r.Rewrap? && WellBuilt(r, before.salt) && Matches(before, r)
    requires r.encMek == Encrypt(MekOf(before), PasswordKek(password, before.salt), mekNonce)
    requires r.recovery == Encrypt(MekOf(before), RecoveryKek(code), recoveryNonce)
    ensures var after := Apply(before, r);
            Unlocked(after, password) == Some(MekOf(before)) && Recovered(after, code) == Some(MekOf(before))
  {
  }
}
