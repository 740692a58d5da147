/** A whole vault recovery (src/routes/recover.tsx over src/lib/vault-persist.ts). */
module Recovery {
  import opened Wrappers
  import opened Text
  import opened Symbolic
  import opened VaultMeta
  import opened MetaServer
  import opened VaultContext
  import opened Tables
  import opened RowMigration
  import opened Rotation
  import opened PqcLifecycle
  import CoAdmin

  datatype Failure =
    | GuardUnreadable
    | WouldDropSecret
    | NotMigrated(cause: Cause)
    | GrantKeysNotDeleted
    | MetaWriteRaised
    | MetaNotSaved

  /** warned: the message tells the user not to close the page. */
  datatype Outcome = Persisted | Failed(failure: Failure, warned: bool)

  /** The failures that leave the final write unsent. */
  predicate BeforeMetaWrite(failure: Failure) {
    !failure.MetaWriteRaised? && !failure.MetaNotSaved?
  }

  /**
   * When a failure warns, given whether a row was written: always when the text
   * of the cause does or the meta was not saved, never when deleting the
   * grant keys failed, otherwise once a row has been written.
   */
  predicate Warns(failure: Failure, anyRowWritten: bool) {
    match failure
    case GuardUnreadable => false
    case WouldDropSecret => false
    case NotMigrated(cause) => TextWarns(cause) || anyRowWritten
    case GrantKeysNotDeleted => false
    case MetaWriteRaised => anyRowWritten
    case MetaNotSaved => true
  }

  /** Which failures warn before any row has been written, and which never do. */
  lemma WarnsIff(failure: Failure)
    ensures Warns(failure, false) <==>
              failure in {NotMigrated(RowNotWritten), NotMigrated(UnexpectedSeal), NotMigrated(NotReconciled),
                          NotMigrated(CountNotANumber), MetaNotSaved}
    ensures Warns(failure, true) <==> failure !in {GuardUnreadable, WouldDropSecret, GrantKeysNotDeleted}
  {
  }

  /** The two ways in which a failure after a rewritten row goes unwarned. */
  ghost predicate UnwarnedRewrite(a: TableReconcile, b: TableReconcile, failure: Failure)
    reads a, b, a.table, b.table
  {
    || failure == GrantKeysNotDeleted
    || (&& failure == NotMigrated(WriteFailed) && !a.anyRowWritten && !b.anyRowWritten
        && OnlyStrayRewritten(a) && OnlyStrayRewritten(b) && (a.stray.None? || b.stray.None?))
  }

  /** What the failure of a run says of the row it gave up on. */
  ghost predicate BlamesStray(a: TableReconcile, b: TableReconcile, failure: Failure)
    reads a, b
  {
    && (a.stray.Some? || b.stray.Some? ==> failure.NotMigrated? && UpdateFailed(Some(failure.cause)))
    && (a.stray.None? || b.stray.None?)
    && (failure in {GuardUnreadable, WouldDropSecret} ==> !a.anyRowWritten && !b.anyRowWritten)
  }

  /**
   * Once some row has been rewritten, a failure goes unwarned exactly when it is
   * the deletion of the grant keys, or the first update of the run whose answer was lost.
   */
  lemma UnwarnedRewriteIff(a: TableReconcile, b: TableReconcile, failure: Failure)
    requires a.Valid() && b.Valid() && BlamesStray(a, b, failure)
    ensures Rewritten(a) || Rewritten(b) ==>
              (!Warns(failure, a.anyRowWritten || b.anyRowWritten) <==> UnwarnedRewrite(a, b, failure))
  {
    hide TableReconcile.Valid, Rewritten, OnlyStrayRewritten;
    if Rewritten(a) {
      RewrittenMeansSent(a);
    } else if Rewritten(b) {
      RewrittenMeansSent(b);
    }
    if !a.anyRowWritten && !b.anyRowWritten {
      UnwrittenMeansOnlyStray(a);
      UnwrittenMeansOnlyStray(b);
    }
  }

  /** The second of these: the update lands, its answer is lost, and the run fails without a warning. */
  lemma LostAnswerGoesUnwarned(keys: Keys, id: Id, before: Row, patch: Patch)
    requires Visible(before) && Settles(keys, before, patch) && Patched(before, patch) != before
    ensures var met: Rows := map[id := before];
            var rows: Rows := map[id := Patched(before, patch)];
            && Tables.Landed(met, rows, Write(id, patch))
            && RunSound(keys, [met] + [rows], met, None, {}, {id})
            && !Warns(NotMigrated(WriteFailed), false)
  {
    var met: Rows := map[id := before];
    var rows: Rows := map[id := Patched(before, patch)];
    assert RunSound(keys, [met], met, None, {}, {}) by {
      assert Latest([met]) == met;
    }
    assert Firsts(met, met) == met;
    WriteKeepsRunSound(keys, [met], met, {}, {}, Write(id, patch), met, rows, [met] + [met] + [rows]);
    assert RowsAccounted(keys, ([met] + [met] + [rows])[2], met, {id});
    assert RowsAccounted(keys, ([met] + [met] + [rows])[0], met, {id});
    assert Latest([met] + [rows]) == rows;
  }

  /** The guard found nothing that the request would drop. */
  ghost predicate GuardPassed(w: World, r: Request)
    requires r.Rotate?
  {
    exists i | 0 <= i < |w.past| :: !RotationRefused(w.past[i], r.kemSecret, r.sigSecret)
  }

  lemma GuardStaysPassed(w: World, w': World, r: Request)
    requires r.Rotate? && Grows(w, w') && GuardPassed(w, r)
    ensures GuardPassed(w', r)
  {
  }

  /** A workspace key that some row had is the one every later row has. */
  lemma WorkspaceKeyKept(server: MetaServer, w: World, guarded: World)
    requires server.Valid() && w.past != [] && Grows(w, guarded) && Grows(guarded, server.world)
    ensures HasText(Current(w).workspaceKey) ==> HasText(Current(guarded).workspaceKey)
    ensures HasText(Current(guarded).workspaceKey) ==> HasText(Current(server.world).workspaceKey)
  {
    hide Inv, Run, StepSound;
    server.Sound();
    var past := server.world.past;
    WorkspaceKeyStays(past, |w.past| - 1, |guarded.past| - 1);
    WorkspaceKeyStays(past, |guarded.past| - 1, |past| - 1);
  }

  lemma UnsentNotStored(server: MetaServer, r: Request)
    requires server.Valid() && r !in server.world.sent
    ensures !TookEffectAndStored(server.world, r)
  {
    server.Sound();
    UnsentMeansUnused(server.world, r);
  }

  /** A table before any run has touched it. */
  ghost predicate Untouched(t: Table)
    reads t
  {
    t.Valid() && t.inFlight.None? && t.original == t.rows && t.history == [t.rows]
  }

  ghost predicate VaultHolds(vault: VaultContext, keys: Keys)
    reads vault
  {
    && vault.mek.Some? && vault.salt.Some?
    && vault.migrationOldCredentialsKey == Some(keys.oldCredentials)
    && vault.migrationOldTransactionsKey == Some(keys.oldTransactions)
    && keys.newCredentials == CredentialsKey(vault.mek.value, vault.salt.value)
    && keys.newTransactions == TransactionsKey(vault.mek.value, vault.salt.value)
  }

  /** Reads the stored row and refuses before anything is changed; others act, the request is not sent. */
  method GuardStoredSecrets(server: MetaServer, r: Request) returns (guard: Result<MetaRow, Failure>)
    requires server.Valid() && r.Rotate? && r !in server.world.sent
    modifies server
    ensures server.Valid() && Grows(old(server.world), server.world) && r !in server.world.sent
    ensures guard.Failure? ==> guard.error in {GuardUnreadable, WouldDropSecret}
    ensures guard == Failure(GuardUnreadable) <==> server.unread > old(server.unread)
    ensures guard == Failure(WouldDropSecret) <==>
              server.unread == old(server.unread) && RotationRefused(Current(server.world), r.kemSecret, r.sigSecret)
    ensures server.unread >= old(server.unread) && server.lost == old(server.lost)
    ensures guard.Success? ==> GuardPassed(server.world, r) && guard.value == Current(server.world)
  {
    var row := server.ReadMeta({r});
    assert r in old(server.world).sent * {r} <==> r in server.world.sent * {r};
    if row.None? {
      return Failure(GuardUnreadable);
    }
    if row.value.kemSecret.Some? && r.kemSecret.None? {
      return Failure(WouldDropSecret);
    }
    if row.value.sigSecret.Some? && r.sigSecret.None? {
      return Failure(WouldDropSecret);
    }
    assert !RotationRefused(server.world.past[|server.world.past| - 1], r.kemSecret, r.sigSecret);
    guard := Success(row.value);
  }

  /** The last write, and what its judged answer means for the run. */
  method PersistRotatedMeta(server: MetaServer, r: Request, anyRowWritten: bool)
    returns (outcome: Outcome, ghost result: WriteResult)
    requires server.Valid() && r.Rotate? && r in server.world.built && r !in server.world.sent
    modifies server
    ensures server.Valid() && Grows(old(server.world), server.world)
    ensures outcome.Persisted? <==> result == RowsChanged(1)
    ensures result.Raised? <==> outcome == Failed(MetaWriteRaised, anyRowWritten)
    ensures outcome.Persisted? ==> r in server.world.log
    ensures outcome.Failed? ==>
              !BeforeMetaWrite(outcome.failure) && outcome.warned == Warns(outcome.failure, anyRowWritten)
    ensures server.unread >= old(server.unread) && server.lost >= old(server.lost)
    ensures server.unread == old(server.unread) ==> (outcome.Persisted? <==> TookEffectAndStored(server.world, r))
    ensures outcome.Failed? ==> server.lost > old(server.lost) || !Matches(Current(server.world), r)
    ensures outcome.Failed? && outcome.failure.MetaWriteRaised? ==> server.lost > old(server.lost)
  {
    var written, _, _ := server.WriteVaultMetaRetryingLostResponses(r, anyRowWritten);
    result := written;
    match written {
      case Raised(warned) => outcome := Failed(MetaWriteRaised, warned);
      case RowsChanged(changed) => outcome := if changed == 1 then Persisted else Failed(MetaNotSaved, true);
    }
  }

  /** Why the tables did not move: a row came in during every pass, or one call or row failed and says why. */
  ghost predicate MoveBlamed(
    a: TableReconcile, b: TableReconcile, cause: Cause, passes: seq<Pass>, faultsA: Faults, faultsB: Faults)
    reads a, b, a.table, b.table
  {
    if cause.NotReconciled? then
      && |passes| == RECONCILE_MAX_PASSES + 1
      && (a.Uncut() && b.Uncut() ==> Inserted(a, b, passes[|passes| - 2].a.start, passes[|passes| - 2].b.start))
    else
      a.Explained(cause, faultsA) || b.Explained(cause, faultsB)
  }

  /** What has become of the grants once every row has moved, given whether anything went wrong on the way. */
  predicate GrantsCleared(
    workspaceKey: Option<Utf16>, before: CoAdmin.Tables, after: CoAdmin.Tables, faultless: bool)
  {
    if HasText(workspaceKey) then after.admins == before.admins && (faultless ==> after.keys == map[])
    else after == before
  }

  /** Both tables move, then the keys of the old workspace key go; a failure before that leaves them alone. */
  method MoveRows(grants: CoAdmin.GrantStore, a: TableReconcile, b: TableReconcile, workspaceKey: Option<Utf16>)
    returns (failure: Option<Failure>, ghost passes: seq<Pass>)
    requires Ready(a, b)
    modifies grants, a, a.table, b, b.table, a.vault`nextNonce, b.vault`nextNonce
    ensures a.Valid() && a.Continues() && a.KeysHeld() && b.Valid() && b.Continues() && b.KeysHeld()
    ensures failure.None? || failure.value.GrantKeysNotDeleted? ==>
              && passes != [] && Ready(a, b)
              && Confirmed(a, passes[|passes| - 1].a) && Confirmed(b, passes[|passes| - 1].b)
    ensures failure.Some? ==> failure.value.NotMigrated? || failure.value.GrantKeysNotDeleted?
    ensures if failure.Some? then BlamesStray(a, b, failure.value) else a.stray.None? && b.stray.None?
    ensures failure.Some? && failure.value.NotMigrated? ==>
              && grants.tables == old(grants.tables)
              && MoveBlamed(a, b, failure.value.cause, passes, old(a.table.faults), old(b.table.faults))
    ensures failure.None? ==>
              GrantsCleared(workspaceKey, old(grants.tables), grants.tables, grants.Faults() == old(grants.Faults()))
    ensures grants.lost >= old(grants.lost) && grants.refused >= old(grants.refused)
    ensures failure == Some(GrantKeysNotDeleted) <==> grants.lost > old(grants.lost)
    ensures grants.lost > old(grants.lost) ==> HasText(workspaceKey)
    ensures CoAdmin.Evident(old(grants.tables)) ==> CoAdmin.Evident(grants.tables)
  {
    hide TableReconcile.Valid, TableReconcile.Running, TableReconcile.KeysHeld, TableReconcile.Explained, Confirmed,
      Inserted, CoAdmin.Evident;
    var cause;
    cause, passes := ReconcileEveryRow(a, b);
    if cause.Some? {
      return Some(NotMigrated(cause.value)), passes;
    }
    failure := None;
    if HasText(workspaceKey) {
      var deleted := grants.DeleteKeysOfWorkspace();
      if !deleted {
        failure := Some(GrantKeysNotDeleted);
      }
    }
  }

  /** migrateAndPersistRotatedVault. a and b are the connections and the transactions. */
  method MigrateAndPersistRotatedVault(
    server: MetaServer, grants: CoAdmin.GrantStore, a: TableReconcile, b: TableReconcile, r: Request)
    returns (outcome: Outcome, ghost passes: seq<Pass>)
    requires server.Valid() && r.Rotate? && r in server.world.built && r !in server.world.sent
    requires Ready(a, b) && a.vault == b.vault && !a.anyRowWritten && !b.anyRowWritten
    modifies server, grants, a, a.table, b, b.table
    modifies a.vault`nextNonce, a.vault`migrationOldCredentialsKey, a.vault`migrationOldTransactionsKey
    ensures server.Valid() && Grows(old(server.world), server.world)
    ensures a.Valid() && a.Continues() && b.Valid() && b.Continues()
    ensures outcome.Persisted? ==> r in server.world.log && GuardPassed(server.world, r)
    ensures outcome.Persisted? || outcome.failure in {GrantKeysNotDeleted, MetaWriteRaised, MetaNotSaved} ==>
              passes != [] && Confirmed(a, passes[|passes| - 1].a) && Confirmed(b, passes[|passes| - 1].b)
    ensures a.stray.None? || b.stray.None?
    ensures outcome.Persisted? ==>
              a.vault.migrationOldCredentialsKey.None? && a.vault.migrationOldTransactionsKey.None?
    ensures outcome.Failed? ==> a.KeysHeld() && b.KeysHeld()
    ensures outcome.Failed? && BeforeMetaWrite(outcome.failure) ==> r !in server.world.sent
    ensures outcome.Failed? ==> outcome.warned == Warns(outcome.failure, a.anyRowWritten || b.anyRowWritten)
    ensures outcome.Failed? && (Rewritten(a) || Rewritten(b)) ==>
              (!outcome.warned <==> UnwarnedRewrite(a, b, outcome.failure))
    ensures outcome.Failed? && outcome.failure in {GuardUnreadable, WouldDropSecret} ==>
              a.table.history == old(a.table.history) && b.table.history == old(b.table.history)
    ensures outcome.Failed? && BeforeMetaWrite(outcome.failure) && outcome.failure != GrantKeysNotDeleted ==>
              grants.tables == old(grants.tables)
    ensures CoAdmin.Evident(old(grants.tables)) ==> CoAdmin.Evident(grants.tables)
    ensures outcome.Persisted? || outcome.failure in {MetaWriteRaised, MetaNotSaved} ==>
              var before, after := old(grants.tables), grants.tables;
              && (HasText(Current(old(server.world)).workspaceKey) && grants.Faults() == old(grants.Faults()) ==>
                    after.keys == map[] && after.admins == before.admins)
              && (!HasText(Current(server.world).workspaceKey) ==> after == before)
    ensures server.unread >= old(server.unread) && server.lost >= old(server.lost)
    ensures server.unread == old(server.unread) ==> (outcome.Persisted? <==> TookEffectAndStored(server.world, r))
    ensures outcome.Failed? ==>
              match outcome.failure
              case GuardUnreadable => server.unread > old(server.unread)
              case WouldDropSecret => RotationRefused(Current(server.world), r.kemSecret, r.sigSecret)
              case NotMigrated(cause) => MoveBlamed(a, b, cause, passes, old(a.table.faults), old(b.table.faults))
              case GrantKeysNotDeleted => grants.lost > old(grants.lost)
              case MetaWriteRaised => server.lost > old(server.lost)
              case MetaNotSaved => server.lost > old(server.lost) || !Matches(Current(server.world), r)
  {
    hide TableReconcile.Valid, TableReconcile.Running, TableReconcile.KeysHeld, Confirmed, GuardPassed, CoAdmin.Evident,
      Rewritten, UnwarnedRewrite, MoveBlamed, TookEffectAndStored, RotationRefused, Matches, HasText,
      Current, TextWarns, UpdateFailed, Run;
    passes := [];
    var guard := GuardStoredSecrets(server, r);
    if guard.Failure? {
      UnwarnedRewriteIff(a, b, guard.error);
      UnsentNotStored(server, r);
      return Failed(guard.error, false), passes;
    }
    ghost var guarded := server.world;
    var failure;
    failure, passes := MoveRows(grants, a, b, guard.value.workspaceKey);
    var anyRowWritten := a.anyRowWritten || b.anyRowWritten;
    if failure.Some? {
      var warned := failure.value.NotMigrated? && (TextWarns(failure.value.cause) || anyRowWritten);
      UnwarnedRewriteIff(a, b, failure.value);
      UnsentNotStored(server, r);
      return Failed(failure.value, warned), passes;
    }
    ghost var written;
    outcome, written := PersistRotatedMeta(server, r, anyRowWritten);
    GuardStaysPassed(guarded, server.world, r);
    WorkspaceKeyKept(server, old(server.world), guarded);
    if outcome.Persisted? {
      a.vault.ClearMigrationKeys();
    } else {
      UnwarnedRewriteIff(a, b, outcome.failure);
    }
  }

  datatype RecoveryOutcome = MetaUnreadable | NotRecovered(error: VaultError) | Ended(outcome: Outcome)

  /** The keys of a run that moves a vault from one MEK to another. */
  function RunKeys(oldMek: Bytes, newMek: Bytes, salt: Utf16): Keys {
    Keys(CredentialsKey(oldMek, salt), TransactionsKey(oldMek, salt),
         CredentialsKey(newMek, salt), TransactionsKey(newMek, salt))
  }

  /** The request seals this MEK for this password and this code. */
  predicate SealsFor(r: Request, newMek: Bytes, newPassword: Utf16, newCode: Utf16, salt: Utf16)
    requires r.Rotate?
  {
    && r.keyVersion == CURRENT_VAULT_KEY_VERSION
    && Decrypt(r.encMek, PasswordKek(newPassword, salt)) == Success(newMek)
    && Decrypt(r.recovery, RecoveryKek(newCode)) == Success(newMek)
  }

  /** The moment at which it took effect and left such a row. */
  ghost predicate LandedAt(
    w: World, r: Request, newMek: Bytes, newPassword: Utf16, newCode: Utf16, j: nat)
    requires r.Rotate?
  {
    && TookEffectAt(w.past, r, j) && RotatedFrom(w.past[j - 1], r, w.past[j]) && HasEnvelope(w.past[j])
    && Unlocked(w.past[j], newPassword) == Some(newMek)
    && Recovered(w.past[j], newCode) == Some(newMek)
  }

  /**
   * The request took effect, the row it left opens to the new MEK with the new
   * password and the new code, its PQC columns are cleared or carried from the
   * row read, and the other columns stayed.
   */
  ghost predicate VaultRotated(
    w: World, read: MetaRow, r: Request, newMek: Bytes, newPassword: Utf16, newCode: Utf16)
    requires r.Rotate? && r.prior.Sealed? && r.encMek.Sealed?
  {
    exists j: nat :: LandedAt(w, r, newMek, newPassword, newCode, j) && PqcCarried(read, r, w.past[j])
  }

  lemma LandedOpens(w: World, read: nat, r: Request, newMek: Bytes, newPassword: Utf16, newCode: Utf16)
    requires Inv(w) && r in w.log && r in w.built && r.Rotate?
    requires read < |w.past| && SealsFor(r, newMek, newPassword, newCode, w.past[read].salt)
    ensures exists j: nat :: LandedAt(w, r, newMek, newPassword, newCode, j)
  {
    RowsAlike(w, read);
    var j: nat :| TookEffectAt(w.past, r, j);
    assert LandedAt(w, r, newMek, newPassword, newCode, j);
  }

  lemma LandedMeansRotated(w: World, read: nat, r: Request, newMek: Bytes, newPassword: Utf16, newCode: Utf16)
    requires Inv(w) && r in w.log && r in w.built && r.Rotate?
    requires read < |w.past| && BuiltFrom(w.past[read], r)
    requires SealsFor(r, newMek, newPassword, newCode, w.past[read].salt)
    ensures VaultRotated(w, w.past[read], r, newMek, newPassword, newCode)
  {
    hide Inv, Lineage;
    LandedOpens(w, read, r, newMek, newPassword, newCode);
    var j: nat :| LandedAt(w, r, newMek, newPassword, newCode, j);
    PqcAfterRotation(w.past[read], w.past[j - 1], r);
  }

  /** recoverWithCode on the row that was read, and the request made from its result. */
  method BuildRotation(
    server: MetaServer, vault: VaultContext, row: MetaRow,
    code: Utf16, newPassword: Utf16, newMek: Bytes, newCode: Utf16) returns (built: Result<Request, VaultError>)
    requires server.Valid() && row == Current(server.world)
    modifies server, vault
    ensures server.Valid() && Grows(old(server.world), server.world) && server.world.past == old(server.world.past)
    ensures server.unread == old(server.unread) && server.lost == old(server.lost)
    ensures built.Success? <==> Recovered(row, code).Some? && SecretsCarriable(row, Recovered(row, code).value)
    ensures built.Success? ==>
              && OneMek(row) && Recovered(row, code) == Some(MekOf(row))
              && built.value.Rotate? && BuiltFrom(row, built.value) && SecretsCarried(row, built.value, MekOf(row))
              && SealsFor(built.value, newMek, newPassword, newCode, row.salt)
              && built.value in server.world.built && built.value !in server.world.sent
              && VaultHolds(vault, RunKeys(MekOf(row), newMek, row.salt))
              && vault.mek == Some(newMek) && vault.salt == Some(row.salt)
    ensures built.Failure? ==> server.world == old(server.world)
  {
    hide Inv, FreshNonce, KnownEnvelopes, MayBuild;
    server.Sound();
    RowsAlike(server.world, |server.world.past| - 1);
    OneMekOpensAlike(row, newPassword, code);
    var nonce := server.DrawNonce();
    var recovered := vault.RecoverWithCode(row, code, newPassword, newMek, newCode, nonce, nonce + 1);
    if recovered.Failure? {
      return Failure(recovered.error);
    }
    var r := RotateRequest(row.recovery, recovered.value);
    FreshNonceMayBuild(server.world, |server.world.past| - 1, r, nonce);
    server.Register(r);
    built := Success(r);
  }

  /** No row was inserted, and either no page was cut short or no row was deleted either. */
  ghost predicate Calm(t: Table, pageSize: nat)
    reads t
  {
    !InsertedSince(t.history, 0) && (pageSize <= t.rowCap || t.original.Keys <= t.rows.Keys)
  }

  /** A run that ended in a calm table has moved every row of it. */
  lemma CalmMeansMoved(t: TableReconcile, last: Lap)
    requires t.Valid() && Confirmed(t, last) && Calm(t.table, t.pageSize)
    ensures AllMoved(t.keys, t.table.rows, t.table.original)
  {
    var h := t.table.history;
    if t.Uncut() {
      if InsertedSince(h, last.start) {
        InsertedEarlier(h, t.table.original, 0, last.start);
      }
      ConfirmedMeansMoved(t, last);
    } else {
      var n := |h| - 1;
      assert h[n].Keys <= h[0].Keys;
      forall id | id in t.table.original.Keys
        ensures id in h[last.end].Keys
      {
        assert id in h[n].Keys && StaysGone(h, id);
      }
      NothingGoneMeansMoved(t, last);
    }
  }

  /** Every row that was there from beginning to end is one that the old keys opened. */
  ghost predicate AllReadable(keys: Keys, history: seq<Rows>, original: Rows) {
    forall id | history != [] && VisibleBetween(history, 0, |history|, id) ::
      id in original && Readable(keys, original[id])
  }

  lemma ConfirmedMeansAllReadable(t: TableReconcile, last: Lap)
    requires t.Valid() && Confirmed(t, last)
    requires t.Uncut() || t.table.original.Keys <= t.table.rows.Keys
    ensures AllReadable(t.keys, t.table.history, t.table.original)
  {
    var h := t.table.history;
    forall id | VisibleBetween(h, 0, |h|, id)
      ensures id in t.table.original && Readable(t.keys, t.table.original[id])
    {
      assert id in VisibleIds(h[|h| - 1]);
      ConfirmedMeansReadable(t, last, id);
    }
  }

  /**
   * While a row that an aborted run settled under lost keys is there, no later
   * recovery from the same MEK resolves, unless the provider holds its credentials.
   */
  lemma AbortedRowBlocks(aborted: Keys, later: Keys, before: Row, history: seq<Rows>, original: Rows, id: Id)
    requires history != [] && VisibleBetween(history, 0, |history|, id) && AllReadable(later, history, original)
    requires Settled(aborted, before, original[id])
    requires aborted.newCredentials != later.oldCredentials && aborted.newTransactions != later.oldTransactions
    ensures before.Connection? && before.credentials == CREDENTIALS_HELD_BY_PROVIDER
  {
    AbortedRowUnreadableIff(aborted, later, before, original[id]);
  }

  lemma ValidMeansNoneLost(t: TableReconcile)
    requires t.Valid()
    ensures NoneLost(t.keys, t.table.rows, t.table.original)
  {
  }

  /** Other sessions went on acting on the table while the meta was written. */
  method OthersAct(t: TableReconcile, ghost last: Lap)
    requires t.Valid() && Confirmed(t, last)
    modifies t.table
    ensures t.Valid() && Confirmed(t, last)
  {
    ghost var history := t.table.history;
    t.Interfere();
    LapStaysDone(history, t.table.history, last, t.Uncut(), t.migrated);
  }

  /**
   * What a run that resolved did to a table: if it stayed calm, everything has
   * moved; if no page was cut short or no row deleted, everything that stayed could be opened.
   */
  ghost predicate TableMoved(keys: Keys, t: Table, pageSize: nat)
    reads t
  {
    && (Calm(t, pageSize) ==> AllMoved(keys, t.rows, t.original))
    && (pageSize <= t.rowCap || t.original.Keys <= t.rows.Keys ==> AllReadable(keys, t.history, t.original))
  }

  lemma ConfirmedMeansTableMoved(t: TableReconcile, last: Lap)
    requires t.Valid() && Confirmed(t, last)
    ensures TableMoved(t.keys, t.table, t.pageSize)
  {
    if Calm(t.table, t.pageSize) {
      CalmMeansMoved(t, last);
    }
    if t.Uncut() || t.table.original.Keys <= t.table.rows.Keys {
      ConfirmedMeansAllReadable(t, last);
    }
  }

  /** What can keep a table from moving: a fault, a row that does not open, a deletion, an insertion or a cut page. */
  ghost predicate Disturbed(t: Table, pageSize: nat, keys: Keys, faultsBefore: Faults)
    reads t
  {
    || t.faults != faultsBefore
    || (exists id | id in t.original :: Visible(t.original[id]) && !Readable(keys, t.original[id]))
    || (exists id | id in t.original :: id !in t.rows)
    || InsertedSince(t.history, 0)
    || t.rowCap < pageSize
  }

  lemma BlamedMeansDisturbed(
    a: TableReconcile, b: TableReconcile, cause: Cause, passes: seq<Pass>, faultsA: Faults, faultsB: Faults)
    requires a.Valid() && b.Valid() && MoveBlamed(a, b, cause, passes, faultsA, faultsB)
    ensures Disturbed(a.table, a.pageSize, a.keys, faultsA) || Disturbed(b.table, b.pageSize, b.keys, faultsB)
  {
    if cause.NotReconciled? && a.Uncut() && b.Uncut() {
      var pass := passes[|passes| - 2];
      if InsertedSince(a.table.history, pass.a.start) {
        InsertedEarlier(a.table.history, a.table.original, 0, pass.a.start);
      } else {
        InsertedEarlier(b.table.history, b.table.original, 0, pass.b.start);
      }
    }
  }

  /** Every failure has something behind it that really happened. */
  twostate predicate FailedBecause(
    failure: Failure, server: MetaServer, grants: CoAdmin.GrantStore, connections: Table, transactions: Table,
    keys: Keys, r: Request)
    requires r.Rotate? && server.Valid()
    reads server, grants, connections, transactions
  {
    match failure
    case GuardUnreadable => server.unread > old(server.unread)
    case WouldDropSecret => RotationRefused(Current(server.world), r.kemSecret, r.sigSecret)
    case NotMigrated(_) =>
      || Disturbed(connections, CONNECTION_PAGE_SIZE, keys, old(connections.faults))
      || Disturbed(transactions, TRANSACTION_PAGE_SIZE, keys, old(transactions.faults))
    case GrantKeysNotDeleted => grants.lost > old(grants.lost)
    case MetaWriteRaised => server.lost > old(server.lost)
    case MetaNotSaved => server.lost > old(server.lost) || !Matches(Current(server.world), r)
  }

  /** The run on two tables that no run has touched. */
  method RunRotation(
    server: MetaServer, grants: CoAdmin.GrantStore, vault: VaultContext, connections: Table, transactions: Table,
    r: Request, ghost keys: Keys) returns (outcome: Outcome)
    requires server.Valid() && r.Rotate? && r in server.world.built && r !in server.world.sent
    requires Untouched(connections) && Untouched(transactions) && connections != transactions && VaultHolds(vault, keys)
    modifies server, grants, connections, transactions
    modifies vault`nextNonce, vault`migrationOldCredentialsKey, vault`migrationOldTransactionsKey
    ensures server.Valid() && Grows(old(server.world), server.world)
    ensures NoneLost(keys, connections.rows, connections.original)
    ensures NoneLost(keys, transactions.rows, transactions.original)
    ensures outcome.Persisted? ==>
              r in server.world.log && vault.migrationOldCredentialsKey.None? && vault.migrationOldTransactionsKey.None?
    ensures outcome.Failed? ==> VaultHolds(vault, keys)
    ensures outcome.Persisted? ==>
              && TableMoved(keys, connections, CONNECTION_PAGE_SIZE)
              && TableMoved(keys, transactions, TRANSACTION_PAGE_SIZE)
    ensures CoAdmin.Evident(old(grants.tables)) ==> CoAdmin.Evident(grants.tables)
    ensures outcome.Persisted? ==>
              var before, after := old(grants.tables), grants.tables;
              && (HasText(Current(old(server.world)).workspaceKey) && grants.Faults() == old(grants.Faults()) ==>
                    after.keys == map[] && after.admins == before.admins)
              && (!HasText(Current(server.world).workspaceKey) ==> after == before)
    ensures server.unread >= old(server.unread) && server.lost >= old(server.lost)
    ensures server.unread == old(server.unread) ==> (outcome.Persisted? <==> TookEffectAndStored(server.world, r))
    ensures outcome.Failed? ==> FailedBecause(outcome.failure, server, grants, connections, transactions, keys, r)
  {
    hide TableReconcile.Valid, Confirmed, TableMoved, NoneLost, CoAdmin.Evident, Grows, GuardPassed,
      Rewritten, UnwarnedRewrite, TookEffectAndStored, RotationRefused, Matches, HasText, MoveBlamed, Disturbed, Run;
    var a := new TableReconcile(connections, vault, CONNECTION_PAGE_SIZE, keys);
    var b := new TableReconcile(transactions, vault, TRANSACTION_PAGE_SIZE, keys);
    ghost var passes;
    outcome, passes := MigrateAndPersistRotatedVault(server, grants, a, b, r);
    if outcome.Persisted? {
      OthersAct(a, passes[|passes| - 1].a);
      OthersAct(b, passes[|passes| - 1].b);
      ConfirmedMeansTableMoved(a, passes[|passes| - 1].a);
      ConfirmedMeansTableMoved(b, passes[|passes| - 1].b);
    } else if outcome.failure.NotMigrated? {
      BlamedMeansDisturbed(a, b, outcome.failure.cause, passes, old(connections.faults), old(transactions.faults));
    }
    ValidMeansNoneLost(a);
    ValidMeansNoneLost(b);
  }

  /** What a recovery started from. */
  datatype Start = Start(row: MetaRow, request: Request)

  /**
   * The recovery of src/routes/recover.tsx: read the row, open it with the code,
   * build the rotation, move every row, write the meta.
   */
  method RecoverVault(
    server: MetaServer, grants: CoAdmin.GrantStore, vault: VaultContext, connections: Table, transactions: Table,
    code: Utf16, newPassword: Utf16, newMek: Bytes, newCode: Utf16)
    returns (outcome: RecoveryOutcome, ghost start: Option<Start>)
    requires server.Valid() && Untouched(connections) && Untouched(transactions) && connections != transactions
    modifies server, grants, vault, connections, transactions
    ensures server.Valid() && Grows(old(server.world), server.world)
    ensures outcome.Ended? <==> start.Some?
    ensures !outcome.Ended? ==> Untouched(connections) && Untouched(transactions)
    ensures !outcome.Ended? ==> connections.rows == old(connections.rows) && transactions.rows == old(transactions.rows)
    ensures !outcome.Ended? ==> grants.tables == old(grants.tables)
    ensures outcome.MetaUnreadable? ==> server.unread > old(server.unread)
    ensures outcome.NotRecovered? ==>
              var row := Current(server.world);
              Recovered(row, code).None? || !SecretsCarriable(row, Recovered(row, code).value)
    ensures start.Some? ==>
              && OneMek(start.value.row) && Recovered(start.value.row, code) == Some(MekOf(start.value.row))
              && start.value.request.Rotate? && BuiltFrom(start.value.row, start.value.request)
              && SecretsCarried(start.value.row, start.value.request, MekOf(start.value.row))
    ensures start.Some? && outcome.outcome.Failed? ==>
              FailedBecause(outcome.outcome.failure, server, grants, connections, transactions,
                            RunKeys(MekOf(start.value.row), newMek, start.value.row.salt), start.value.request)
    ensures start.Some? && server.unread == old(server.unread) ==>
              (outcome.outcome.Persisted? <==> TookEffectAndStored(server.world, start.value.request))
    ensures outcome == Ended(Persisted) ==>
              var before, after := old(grants.tables), grants.tables;
              && (HasText(start.value.row.workspaceKey) && grants.Faults() == old(grants.Faults()) ==>
                    after.keys == map[] && after.admins == before.admins)
              && (!HasText(Current(server.world).workspaceKey) ==> after == before)
    ensures start.Some? ==>
              var keys := RunKeys(MekOf(start.value.row), newMek, start.value.row.salt);
              && NoneLost(keys, connections.rows, connections.original)
              && NoneLost(keys, transactions.rows, transactions.original)
              && (outcome.outcome.Failed? ==> VaultHolds(vault, keys))
    ensures outcome == Ended(Persisted) ==>
              && VaultRotated(server.world, start.value.row, start.value.request, newMek, newPassword, newCode)
              && vault.migrationOldCredentialsKey.None? && vault.migrationOldTransactionsKey.None?
              && vault.mek == Some(newMek)
    ensures outcome == Ended(Persisted) ==>
              var keys := RunKeys(MekOf(start.value.row), newMek, start.value.row.salt);
              && TableMoved(keys, connections, CONNECTION_PAGE_SIZE)
              && TableMoved(keys, transactions, TRANSACTION_PAGE_SIZE)
    ensures CoAdmin.Evident(old(grants.tables)) ==> CoAdmin.Evident(grants.tables)
  {
    hide TableMoved, NoneLost, CoAdmin.Evident, Inv, Lineage, OneMek, BuiltFrom, SealsFor, VaultHolds,
      Recovered, VaultRotated, TookEffectAndStored, RotationRefused, Matches, HasText, Disturbed,
      SecretsCarried, SecretsCarriable, Run;
    start := None;
    var row := server.ReadMeta({});
    if row.None? {
      return MetaUnreadable, start;
    }
    ghost var read := |server.world.past| - 1;
    var built := BuildRotation(server, vault, row.value, code, newPassword, newMek, newCode);
    if built.Failure? {
      return NotRecovered(built.error), start;
    }
    ghost var keys := RunKeys(MekOf(row.value), newMek, row.value.salt);
    start := Some(Start(row.value, built.value));
    var persisted := RunRotation(server, grants, vault, connections, transactions, built.value, keys);
    if persisted.Persisted? {
      server.Sound();
      LandedMeansRotated(server.world, read, built.value, newMek, newPassword, newCode);
    }
    outcome := Ended(persisted);
  }
}
