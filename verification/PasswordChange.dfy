/** A whole password change (src/routes/app.tsx over src/lib/vault-persist.ts). */
module PasswordChange {
  import opened Wrappers
  import opened Text
  import opened Symbolic
  import opened VaultMeta
  import opened MetaServer
  import opened VaultContext

  datatype ChangeOutcome = MetaUnreadable | NotChanged(error: VaultError) | Written(save: SaveOutcome)

  /** The row opens to this MEK with this password and this code, and with no other. */
  ghost predicate OpensOnlyWith(row: MetaRow, mek: Bytes, password: Utf16, code: Utf16) {
    && OneMek(row) && MekOf(row) == mek
    && (forall p: Utf16 :: Unlocked(row, p) == if p == password then Some(mek) else None)
    && (forall c: Utf16 :: Recovered(row, c) == if c == code then Some(mek) else None)
  }

  lemma SavedMeansOpens(row: MetaRow, mek: Bytes, password: Utf16, code: Utf16)
    requires OneMek(row) && MekOf(row) == mek
    requires Decrypt(row.encMek, PasswordKek(password, row.salt)) == Success(mek)
    requires Decrypt(row.recovery, RecoveryKek(code)) == Success(mek)
    ensures OpensOnlyWith(row, mek, password, code)
  {
  }

  /** What a password change started from. */
  datatype Start = Start(row: MetaRow, request: Request)

  /** Since the row was loaded nobody but this change replaced the recovery envelope. */
  predicate NobodyElse(now: MetaRow, start: Start) {
    now.recovery == start.row.recovery || now.recovery == start.request.recovery
  }

  /** A password and a code that opened the loaded row still do exactly when the change did not take effect. */
  ghost predicate OldWaysInIff(w: World, start: Start, newPassword: Utf16, newCode: Utf16)
    requires w.past != []
  {
    NobodyElse(Current(w), start) ==>
      && (forall p: Utf16 | p != newPassword && Unlocked(start.row, p).Some? ::
            Unlocked(Current(w), p).Some? <==> start.request !in w.log)
      && (forall c: Utf16 | c != newCode && Recovered(start.row, c).Some? ::
            Recovered(Current(w), c).Some? <==> start.request !in w.log)
  }

  /** Under this proviso the stored envelopes tell whether the change took effect. */
  lemma EnvelopesTell(w: World, read: nat, r: Request)
    requires Inv(w) && Lineage(w) && r.Rewrap? && r in w.built
    requires read < |w.past| && BuiltFrom(w.past[read], r) && NobodyElse(Current(w), Start(w.past[read], r))
    ensures r in w.log <==> Current(w).recovery == r.recovery
    ensures r !in w.log ==>
              Current(w).recovery == w.past[read].recovery && Current(w).encMek == w.past[read].encMek
  {
    EnvelopesStay(w, read);
    assert r in w.log ==> r.prior in w.retired;
    assert Current(w).encMek in Envelopes(Current(w));
    if Current(w).recovery == r.recovery {
      StoredMeansLanded(w, r);
    }
  }

  /** The row that a landed change leaves opens with nothing but the new password and the new code. */
  lemma LandedChangeOpens(w: World, read: nat, r: Request, mek: Bytes, newPassword: Utf16, newCode: Utf16)
    requires Inv(w) && Lineage(w) && r.Rewrap? && r in w.log && Current(w).recovery == r.recovery
    requires read < |w.past| && OneMek(w.past[read]) && MekOf(w.past[read]) == mek && WellBuilt(r, w.past[read].salt)
    requires Decrypt(r.encMek, PasswordKek(newPassword, w.past[read].salt)) == Success(mek)
    requires Decrypt(r.recovery, RecoveryKek(newCode)) == Success(mek)
    ensures OpensOnlyWith(Current(w), mek, newPassword, newCode)
  {
    var last := |w.past| - 1;
    var j: nat :| TookEffectAt(w.past, r, j);
    EnvelopesStay(w, j);
    RowsAlike(w, read);
    RowsAlike(w, last);
    SavedMeansOpens(Current(w), mek, newPassword, newCode);
  }

  /**
   * When nobody else wrote, the password and the code of the loaded row still
   * open the vault exactly when the change did not take effect, whatever answer came back.
   */
  lemma OldWaysIn(w: World, read: nat, r: Request, mek: Bytes, newPassword: Utf16, newCode: Utf16)
    requires Inv(w) && Lineage(w) && r.Rewrap? && r in w.built
    requires read < |w.past| && OneMek(w.past[read]) && MekOf(w.past[read]) == mek && BuiltFrom(w.past[read], r)
    requires Decrypt(r.encMek, PasswordKek(newPassword, w.past[read].salt)) == Success(mek)
    requires Decrypt(r.recovery, RecoveryKek(newCode)) == Success(mek)
    ensures OldWaysInIff(w, Start(w.past[read], r), newPassword, newCode)
  {
    var row, now := w.past[read], Current(w);
    if NobodyElse(now, Start(row, r)) {
      EnvelopesTell(w, read, r);
      if r in w.log {
        LandedChangeOpens(w, read, r, mek, newPassword, newCode);
      } else {
        RowsAlike(w, |w.past| - 1);
        RowsAlike(w, read);
        SameEnvelopesOpenAlike(row, now);
      }
    }
  }

  lemma SameEnvelopesOpenAlike(row: MetaRow, now: MetaRow)
    requires OneMek(row) && OneMek(now) && row.salt == now.salt
    requires row.encMek == now.encMek && row.recovery == now.recovery
    ensures forall p: Utf16 :: Unlocked(row, p) == Unlocked(now, p)
    ensures forall c: Utf16 :: Recovered(row, c) == Recovered(now, c)
  {
  }

  /**
   * An input for which they do not: the write lands and its answer is lost. The
   * code in the user's hands opens nothing, and the new one was never shown.
   */
  lemma LostSaveLocksOut(
    row: MetaRow, r: Request, oldPassword: Utf16, oldCode: Utf16, newPassword: Utf16, newCode: Utf16)
    requires OneMek(row) && BuiltFrom(row, r) && r.Rewrap?
    requires MayBuild(World([row], {}, {}, [], {}), r)
    requires Decrypt(r.encMek, PasswordKek(newPassword, row.salt)) == Success(MekOf(row))
    requires Decrypt(r.recovery, RecoveryKek(newCode)) == Success(MekOf(row))
    requires oldPassword != newPassword && oldCode != newCode
    ensures var w := Next(Next(Next(World([row], {}, {}, [], {}), Build(r)), Send(r)), Deliver(r));
            && r in w.log && NobodyElse(Current(w), Start(row, r))
            && Unlocked(Current(w), oldPassword).None? && Recovered(Current(w), oldCode).None?
            && Recovered(Current(w), newCode) == Some(MekOf(row))
  {
    var start := World([row], {}, {}, [], {});
    assert Current(start) == row && r in ([] + [r]);
    var w := Next(Next(Next(start, Build(r)), Send(r)), Deliver(r));
    assert Current(w) == Apply(row, r);
  }

  /** changeVaultPassword on the row the page loaded, however long ago, and the request made from its result. */
  method BuildChange(
    server: MetaServer, vault: VaultContext, ghost read: nat, row: MetaRow,
    currentPassword: Utf16, newPassword: Utf16, strong: bool, newCode: Utf16)
    returns (built: Result<Request, VaultError>)
    requires server.Valid() && read < |server.world.past| && server.world.past[read] == row
    modifies server, vault`mek
    ensures server.Valid() && Grows(old(server.world), server.world)
    ensures server.unread == old(server.unread) && server.lost == old(server.lost)
    ensures server.world.past == old(server.world.past)
    ensures built.Success? <==> strong && HasEnvelope(row) && Unlocked(row, currentPassword).Some?
    ensures built.Success? ==> built.value !in server.world.sent
    ensures built.Success? ==>
              && OneMek(row) && Unlocked(row, currentPassword) == Some(MekOf(row))
              && built.value.Rewrap? && BuiltFrom(row, built.value) && built.value in server.world.built
              && Decrypt(built.value.encMek, PasswordKek(newPassword, row.salt)) == Success(MekOf(row))
              && Decrypt(built.value.recovery, RecoveryKek(newCode)) == Success(MekOf(row))
              && vault.mek == Some(MekOf(row))
    ensures built.Failure? ==> server.world == old(server.world) && vault.mek == old(vault.mek)
  {
    hide Inv, Lineage, FreshNonce, KnownEnvelopes, MayBuild;
    server.Sound();
    RowsAlike(server.world, read);
    OneMekOpensAlike(row, currentPassword, newCode);
    var nonce := server.DrawNonce();
    var changed := vault.ChangeVaultPassword(row, currentPassword, newPassword, strong, newCode, nonce, nonce + 1);
    if changed.Failure? {
      return Failure(changed.error);
    }
    var r := RewrapRequest(row.encMek, changed.value);
    FreshNonceMayBuild(server.world, read, r, nonce);
    server.Register(r);
    built := Success(r);
  }

  /**
   * Loads the row, lets others act for as long as the page stays open, rewraps
   * the MEK and writes the two envelopes. A saved change keeps the MEK, so no
   * row has to move, and replaces both ways in; when the answer is lost, the
   * ways in tell whether the change took effect.
   */
  method ChangePassword(
    server: MetaServer, vault: VaultContext,
    currentPassword: Utf16, newPassword: Utf16, strong: bool, newCode: Utf16)
    returns (outcome: ChangeOutcome, ghost start: Option<Start>)
    requires server.Valid()
    modifies server, vault`mek
    ensures server.Valid() && Grows(old(server.world), server.world)
    ensures outcome.Written? <==> start.Some?
    ensures outcome.Written? ==>
              && OneMek(start.value.row) && Unlocked(start.value.row, currentPassword) == Some(MekOf(start.value.row))
              && start.value.request.Rewrap? && BuiltFrom(start.value.row, start.value.request)
              && OldWaysInIff(server.world, start.value, newPassword, newCode)
    ensures outcome == Written(Saved) ==>
              && OpensOnlyWith(Current(server.world), MekOf(start.value.row), newPassword, newCode)
              && vault.mek == Some(MekOf(start.value.row))
              && Current(server.world).salt == start.value.row.salt
              && start.value.request in server.world.log
    ensures !outcome.Written? ==> vault.mek == old(vault.mek)
    ensures outcome.MetaUnreadable? ==> server.unread > old(server.unread)
    ensures outcome.NotChanged? ==>
              !strong || exists row | row in server.world.past ::
                !HasEnvelope(row) || Unlocked(row, currentPassword).None?
    ensures outcome.Written? ==>
              match outcome.save
              case Saved => true
              case SaveFailed => server.lost > old(server.lost)
              case Conflict =>
                && start.value.request !in server.world.log
                && (server.lost > old(server.lost) || !Matches(Current(server.world), start.value.request))
              case NotProven => false
  {
    hide Inv, Lineage, BuiltFrom, OpensOnlyWith, OldWaysInIff, Matches, HasEnvelope, Unlocked, Run;
    start := None;
    var row := server.ReadMeta({});
    if row.None? {
      return MetaUnreadable, start;
    }
    ghost var read := |server.world.past| - 1;
    server.Interfere({});
    var built := BuildChange(server, vault, read, row.value, currentPassword, newPassword, strong, newCode);
    assert server.world.past[read] == row.value;
    if built.Failure? {
      return NotChanged(built.error), start;
    }
    start := Some(Start(row.value, built.value));
    var mek := vault.mek.value;
    var passwordKey, recoveryKey := PasswordKek(newPassword, row.value.salt), RecoveryKek(newCode);
    var save, _ := server.PersistRewrappedVaultMeta(built.value, passwordKey, recoveryKey, mek);
    server.Sound();
    OldWaysIn(server.world, read, built.value, mek, newPassword, newCode);
    if save.Saved? {
      RowsAlike(server.world, read);
      SavedMeansOpens(Current(server.world), mek, newPassword, newCode);
    }
    outcome := Written(save);
  }
}
