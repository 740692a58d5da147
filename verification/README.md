# The vault of OrangeRails, modelled and proved in Dafny

The repository keeps a user's bank credentials and transactions encrypted in the
browser. A random master key (the MEK) is wrapped twice, once under the vault
password and once under a recovery code; subkeys of the MEK seal the rows of two
tables. This project models the code that can lose such a vault when it is wrong:
the recovery that re-encrypts every row under a new MEK while other sessions write
to the same tables, the writers that race on the one row holding the envelopes, the
keyring of data-key generations and its epoch-bound wrap, the two-table protocol of
a co-admin grant, and the byte encodings all of these sign or authenticate.

`dafny verify dfyconfig.toml` checks the whole project.

## How the system is modelled

- **Cryptography is symbolic** (`Symbolic.dfy`). A column is plain text or
  `Sealed(key, aad, plaintext, nonce)`; it opens under the same key and associated
  data only. Key derivation is injective, random nonces do not repeat.
- **Other sessions are adversary steps.** `MetaServer.Interfere` and
  `Table.Interfere` change the database arbitrarily within what the schema lets other
  sessions do, and run before or inside every database call. Answers are lost,
  statements are refused without an error, and a statement whose answer was given up
  on may arrive later. Ghost histories record every state, so a property can speak of
  a whole run. Ghost counters of faults, one for each kind, say when nothing went wrong.
- **Tables** (`Tables.dfy`, `RowMigration.dfy`, `Rotation.dfy`). Each table is a map from
  uuid to row. Others insert rows under ids never issued before and delete rows; no
  row is edited in place by another session. A server-side cap may cut any page short.
- **The meta row** (`VaultMeta.dfy`, `MetaServer.dfy`, `VaultContext.dfy`, `PqcLifecycle.dfy`).
  Requests are built from a row that was read, sent any number of times, and delivered
  at any later moment; recoveries and password changes run in any number and order.
- **The whole recovery** (`Recovery.dfy`) follows the call order of `src/routes/recover.tsx`,
  **the whole password change** (`PasswordChange.dfy`) that of `src/routes/app.tsx`.
- **Co-admin grants** (`CoAdmin.dfy`) are methods on two tables that may stop anywhere;
  `CoAdminInterleaving.dfy` takes the four statements apart and lets them interleave.
- **Strings** are sequences of UTF-16 code units, so that lone surrogates exist; JSON
  (section 7 of RFC 8259 with well-formed `JSON.stringify`) and UTF-8 (section 3 of RFC 3629)
  have printers and readers (`Json.dfy`, `Utf8.dfy`), CSV a strict reader of section 2 of
  RFC 4180 (`Csv.dfy`).

## Where the code does not do what one might expect

- **A recovery that drops a dead post-quantum secret is refused.** The comments around
  `src/context/VaultContext.tsx:604-609` say it succeeds; the guard at
  `src/lib/vault-persist.ts:776-785` rejects it. `PqcLifecycle.DroppedSecretRefused` gives the
  exact condition, `PqcLifecycle.OneDeadSecretExample` an input.
- **`addDataKeyGeneration` can break a valid keyring** when the newest generation is 2^53
  or above, because the addition rounds. `Keyring.AddKeepsValid` gives the exact
  condition for one call, `KeyringHistory.HeadroomIsExact` for every sequence of calls,
  `Keyring.AddCanBreakValidity` an input. Keyrings the code generates never get there.
- **A sweep and a count that agree do not prove that every row moved.** Between the
  last sweep's read and the count a migrated row may go and a new one may come:
  `RowMigration.AgreementMayLeaveARow` is such a run, `Rotation.ConfirmedBound` the bound
  that holds, `Rotation.ConfirmedMeansMoved` and `Rotation.NothingGoneMeansMoved` the
  conditions under which nothing is left.
- **Two failures after a rewritten row do not warn the user to keep the page open**: the
  deletion of the old workspace key's `wrapped_data_keys` rows
  (`src/lib/vault-persist.ts:986-992`), and the first update of the run when it lands and its
  answer is lost, because `anyRowWritten` is still false (`src/lib/vault-persist.ts:861-871`).
  `Recovery.UnwarnedRewriteIff` says these are the only ones, and that in the second case
  no other row was rewritten; `Recovery.LostAnswerGoesUnwarned` is an input.
- **A password change whose answer is lost can leave the user with a dead recovery code.** The
  error at `src/lib/vault-persist.ts:1186` does not say whether the write landed, and the new code
  is shown only after success. `PasswordChange.OldWaysIn` says exactly when the old password and
  code still work; `PasswordChange.LostSaveLocksOut` is an input for which they do not.
- **Interleaved grants and revokes can leave a key without its list entry.**
  `CoAdminInterleaving.EvidentIffNoConflict` says exactly when, for any number of attempts whose
  statements interleave or arrive late; attempts made one after another are an instance that
  never does. `CoAdmin.InterleavingBreaksIt` is an input.
- **The signed grant bytes name one grant exactly when no field holds a lone surrogate or
  U+FFFD** (`MemberGrant.SignedBytesUniqueIff`); `MemberGrant.LoneSurrogateGrantsCollide` is an
  input for which they do not.
- **A CSV reader that drops one ending line break** loses a last row that is a lone empty
  cell: `Csv.LooseReaderAgrees`.

## Model

| member | source | states |
|---|---|---|
| Tables.Table.ReadPage | src/lib/vault-persist.ts:434-443 | a read gives the first visible rows above the cursor in ascending order of id, at most the page size and the server's cap, after others have acted |
| Tables.Table.ExactRowCount | src/lib/vault-persist.ts:253-266 | the count is that of all visible rows, which no cap clips, or it is a failure |
| Tables.Table.Update | src/lib/vault-persist.ts:861-869 | one answered row means the update landed; no answer means it landed, was lost, or is still in flight |
| Tables.SmallestIds | src/lib/vault-persist.ts:440-440 | ordering and limit: what is left out of a page is above everything in it |
| Tables.TrailGrows | src/lib/vault-persist.ts:415-419 | whatever others do, a row keeps its seal and an id that went does not come back |
| RowMigration.LateUpdateSettles | src/lib/vault-persist.ts:861-871 | an update that arrives again or late settles its row the same way |
| RowMigration.OthersKeepRunSound | src/lib/vault-persist.ts:823-917 | inserts, deletes and an update landing late keep every row intact or settled |
| RowMigration.WriteKeepsRunSound | src/lib/vault-persist.ts:861-871 | an update that landed, did not or still may adds only its own row to the touched ones |
| RowMigration.MissedMeansInserted | src/lib/vault-persist.ts:409-419 | a row that a completed sweep left was inserted since that sweep began |
| RowMigration.CountAboveMeansInserted | src/lib/vault-persist.ts:379-383 | so was some row when the exact count exceeds the migrated rows |
| RowMigration.LaterDisagreement | src/lib/vault-persist.ts:379-385 | a table left unsettled by a later pass had a row inserted since the pass before began |
| RowMigration.AbortedRowUnreadableIff | src/lib/vault-persist.ts:1007-1014 | a row settled under keys that are lost cannot be opened by a later run, except a connection whose credentials the provider holds |
| RowMigration.CountBound | src/lib/vault-persist.ts:336-341 | rows left behind at a count number at most the migrated rows since gone; none are left if none went |
| RowMigration.AgreementMayLeaveARow | src/lib/vault-persist.ts:315-322 | a run the walk produces, with one read before the count, in which sweep and count agree and a live row is still under the old key |
| Rotation.TableReconcile.MigrateLabel | src/lib/vault-persist.ts:840-851 | a label keeps its plaintext and its key family, and is left alone exactly when it opens under neither |
| Rotation.TableReconcile.WriteRow | src/lib/vault-persist.ts:861-871 | a row is recorded exactly when the update returned it; otherwise it is the one stray row and the failure has a cause |
| Rotation.TableReconcile.MigrateConnection | src/lib/vault-persist.ts:823-872 | the row is settled and recorded, with no update exactly when nothing on it is under the vault's keys; it fails as unreadable exactly when its credentials do not open |
| Rotation.TableReconcile.MigrateTransaction | src/lib/vault-persist.ts:891-917 | the row is settled and recorded by one update; a row under another seal is refused by name |
| Rotation.TableReconcile.MigratePage | src/lib/vault-persist.ts:446-448 | after a page every row of it is migrated and nothing else has become so; rows already migrated are not handed over again |
| Rotation.TableReconcile.Sweep | src/lib/vault-persist.ts:425-453 | the walk ends, migrates every row visible throughout it when no page is cut short, migrates only rows it saw, and issues no update when it migrates nothing |
| Rotation.OnePass | src/lib/vault-persist.ts:359-385 | both sweeps before both counts; settled exactly when neither sweep added a row and neither count exceeds the migrated rows |
| Rotation.FirstPassDisagrees | src/lib/vault-persist.ts:379-385 | a first pass that does not settle has migrated a row or seen an insertion |
| Rotation.LaterPassDisagrees | src/lib/vault-persist.ts:379-385 | a later pass that does not settle proves an insertion since the pass before it began |
| Rotation.ReconcileEveryRow | src/lib/vault-persist.ts:355-397 | it returns only past a pass confirming both tables and issuing no update; at most RECONCILE_MAX_PASSES + 1 passes; giving up means an insertion since the second-last pass began; without insertions one pass for empty tables and exactly two otherwise; every other failure names what went wrong: a read that failed, a count that erred or was no number, a row that does not open, an update without an answer, or one that returned no row because it was refused or a row had gone |
| Rotation.EveryStateAccounted | src/lib/vault-persist.ts:823-917 | in every state of a table, aborted run or not, a row is the original or the same plaintext under the new key; no row is handed over twice; a row rewritten unrecorded is the one the run gave up on, also when anyRowWritten is still false |
| Rotation.OneUnrecorded | src/lib/vault-persist.ts:861-871 | over both tables of a run at most one row is rewritten unrecorded |
| Rotation.ConfirmedReached | src/lib/vault-persist.ts:320-327 | every row present throughout the last sweep of its table is migrated, and was before that sweep began |
| Rotation.ConfirmedBound | src/lib/vault-persist.ts:329-341 | at the final count the live rows not migrated are at most the migrated rows since gone, however short the pages; all live rows are migrated if no row was deleted before it, or ever |
| Rotation.UnwrittenMeansOnlyStray | src/lib/vault-persist.ts:861-871 | while no update was acknowledged only the row the run gave up on can have changed |
| Rotation.ConfirmedMeansMoved | src/lib/vault-persist.ts:289-297 | unless a row was inserted since the last sweep began, every vault-sealed row is settled and every other row is byte-identical |
| Rotation.NothingGoneMeansMoved | src/lib/vault-persist.ts:329-341 | the same however short the pages were, if no row went before the final count and none came after it |
| Rotation.ConfirmedMeansReadable | src/lib/vault-persist.ts:1007-1014 | a row present from the last sweep on is one that the run could open, if no page was cut short or no row was deleted |
| VaultMeta.NextKeepsInv | src/lib/vault-persist.ts:675-680 | every step of every session keeps the invariant of the meta row |
| VaultMeta.OneMekThroughout | src/lib/vault-persist.ts:1082-1117 | in any interleaving of recoveries and password changes every stored row's two envelopes and verifier belong to one MEK |
| VaultMeta.AtMostOnce | src/lib/vault-persist.ts:639-664 | of all attempts at one meta write, late and repeated ones included, at most one takes effect |
| VaultMeta.NothingOverwritten | src/lib/vault-persist.ts:457-463 | between the read a guard came from and the write it let through the row held both envelopes that were read, and no other request took effect |
| VaultMeta.LandedMeansHeld | src/lib/vault-persist.ts:595-624 | a request that took effect was at some moment exactly what the row held |
| VaultMeta.StoredMeansLanded | src/lib/vault-persist.ts:616-622 | the stored recovery envelope proves that the write it came from landed |
| VaultMeta.GuardMeansUnused | src/lib/vault-persist.ts:623-623 | while its guard is stored a request has not taken effect |
| VaultMeta.LandedValuesStored | src/lib/vault-persist.ts:595-624 | while the recovery envelope of a landed rotation is stored, so are its verifier and key version: the three values the read-back compares move together |
| VaultMeta.NextKeepsLineage | src/lib/vault-persist.ts:1082-1117 | every step keeps each request's origin in a stored row, replaces both envelopes or neither, changes the verifier and key version only with them, and keeps the salt and a workspace key once set |
| VaultMeta.PqcThroughout | src/lib/vault-persist.ts:1082-1097 | in every run, right after a landed rotation both public keys are null or both secrets are those of the row it was made from, stored before it landed, moved to the new MEK; both public keys stay exactly as they were when both secrets were carried and go otherwise, a secret that was not carried is left in place, the salt and the workspace key stay |
| VaultMeta.LandedRewrapKeepsRest | src/lib/vault-persist.ts:1177-1184 | a landed password change replaces the two envelopes and no other column |
| VaultMeta.FreshNonceMayBuild | src/lib/vault.ts:398-400 | envelopes sealed under fresh nonces differ from every envelope that is, was or may be stored |
| MetaServer.MetaServer.CompareAndSwap | src/lib/vault-persist.ts:675-698 | one answered row means this write just took effect and is stored; no answer proves nothing; when nothing is lost, no row means the guard is not stored; no row for a request never sent before means it has not taken effect |
| MetaServer.MetaServer.ReadBackRotatedMeta | src/lib/vault-persist.ts:602-628 | when the row can be read, the answer is landed exactly when the write took effect and its envelope is still stored, and not landed exactly when the guard is still stored; when it cannot, landed and not landed are never claimed wrongly |
| MetaServer.MetaServer.WriteVaultMetaRetryingLostResponses | src/lib/vault-persist.ts:666-715 | when every read-back could read the row, success exactly when the write took effect and is still stored; success always means it took effect; a raised failure means an answer was lost, and any failure that, or another guard stored; which answers and read-backs lead to another attempt, to success and to giving up |
| MetaServer.MetaServer.PersistRewrappedVaultMeta | src/lib/vault-persist.ts:1162-1212 | saved exactly when one row came back and both envelopes open, and then the stored ones open to the MEK under the new password and code; a failed save means an answer was lost; a conflict means that or another guard stored, and that a request not sent before did not take effect |
| MetaServer.MetaServer.EnsurePqcKeypairs | src/lib/pqc-lifecycle.ts:472-506 | keys are generated exactly when the KEM public key is null or empty, all four columns are then the new ones, and no envelope changes |
| PqcLifecycle.CarryReturnsIff | src/lib/pqc-lifecycle.ts:276-349 | the carry returns exactly when the wrap key is right and each stored secret opens, or is dead beside one that opens |
| PqcLifecycle.CarryFailsAs | src/lib/pqc-lifecycle.ts:293-349 | which failure comes when: the wrong wrap key first, then a secret that cannot be tried, then a dead secret without a sibling that opens |
| PqcLifecycle.CarryIsExact | src/lib/pqc-lifecycle.ts:276-349 | a secret is carried exactly when it opens, with its plaintext unchanged; the replaced flag means a dead one |
| PqcLifecycle.DroppedSecretRefused | src/lib/vault-persist.ts:776-785 | the rotation guard passes exactly when the carry dropped nothing and no column is an empty string |
| PqcLifecycle.OneDeadSecretExample | src/lib/vault-persist.ts:776-785 | one dead secret beside a live one: the carry returns and the rotation is refused |
| VaultContext.VaultContext.Unlock | src/context/VaultContext.tsx:480-516 | unlocks exactly when the verifier accepts the MEK of the envelope, or of the password for an old vault; otherwise no key changes |
| VaultContext.UnlocksIff | src/context/VaultContext.tsx:480-516 | a password unlocks a version 2 row with one MEK exactly when its envelope was sealed for that password, and to that MEK; an older row exactly when its verifier was made with the MEK of the password |
| VaultContext.LegacyUnlocksIff | src/context/VaultContext.tsx:498-505 | without an envelope the verifier alone decides, and it must be one made with the MEK of the password |
| VaultContext.VerifierDecides | src/context/VaultContext.tsx:561-564 | an envelope swapped for one with another MEK than the verifier's opens for no password and no code |
| VaultContext.VaultContext.RecoverWithCode | src/context/VaultContext.tsx:538-672 | succeeds exactly when the code opens the envelope, the verifier agrees and each secret opens or is dead beside one that opens; the request is built from the row read and carries each secret exactly when it opens; a dead one raises the flag; which error comes when; the old subkeys are kept once the code is proved; a failure leaves the MEK |
| VaultContext.VaultContext.ChangeVaultPassword | src/context/VaultContext.tsx:677-775 | succeeds exactly for a strong new password and a current one that unlocks, and names the first of the three reasons otherwise; both new envelopes seal the same MEK |
| VaultContext.VaultContext.MigrateCredentialsCiphertext | src/context/VaultContext.tsx:797-810 | re-seals under the new credentials key exactly when the old one opens |
| VaultContext.VaultContext.MigrateTransactionCiphertext | src/context/VaultContext.tsx:812-825 | re-seals under the new transactions key exactly when the old one opens |
| VaultContext.VaultContext.ClearMigrationKeys | src/context/VaultContext.tsx:827-830 | both old subkeys are gone |
| VaultContext.VaultContext.Lock | src/context/VaultContext.tsx:835-840 | the MEK and the salt are gone, the old subkeys of a recovery stay |
| VaultContext.OneMekOpensAlike | src/context/VaultContext.tsx:493-501 | a row with one MEK gives that MEK and no other to whoever can open an envelope |
| VaultContext.RotatedVaultOpens | src/lib/vault-persist.ts:1082-1117 | right after a recovery the new password and code open the new MEK and the old code opens nothing |
| VaultContext.RewrappedVaultOpens | src/lib/vault-persist.ts:1177-1189 | right after a password change the new password and code open the old MEK |
| Recovery.WarnsIff | src/lib/vault-persist.ts:560-576 | which failures warn the user not to close the page before any row has been written, and which three never do |
| Recovery.UnwarnedRewriteIff | src/lib/vault-persist.ts:560-576 | once some row has been rewritten a failure goes unwarned exactly when it is the deletion of the grant keys, or a lost answer with no update acknowledged and no row of either table but that one rewritten |
| Recovery.LostAnswerGoesUnwarned | src/lib/vault-persist.ts:861-871 | the update lands, its answer is lost, and the failure carries no warning |
| Recovery.GuardStoredSecrets | src/lib/vault-persist.ts:753-785 | refuses exactly when the row cannot be read, or when the request would drop a secret that the stored row has, before the write is sent |
| Recovery.MoveRows | src/lib/vault-persist.ts:951-992 | both tables are confirmed before the grant keys are touched; with a workspace key every stored grant key is then gone if nothing went wrong, without one the grants are as before; the failure names what happened: a fault, an unreadable, deleted or inserted row, or a lost deletion; a stored grant key still implies a list entry |
| Recovery.PersistRotatedMeta | src/lib/vault-persist.ts:1105-1122 | persisted exactly when the judged answer is one row; when every read-back could read, exactly when the write took effect and is still stored |
| Recovery.MigrateAndPersistRotatedVault | src/lib/vault-persist.ts:724-1127 | resolves only with the guard passed and the write landed, and only then are the old subkeys cleared; when every read of the row succeeded, resolves exactly when the write took effect and is still stored; both tables are confirmed before the grant keys and the meta are touched; the keys of the old workspace key are gone by then if nothing went wrong with them, and without a workspace key the grants are untouched; a failure before the last step leaves the write unsent, and every failure has its cause; at most one row of both tables is given up on; when a failure warns, and after a rewritten row exactly when it does not |
| Recovery.CalmMeansMoved | src/lib/vault-persist.ts:329-341 | a resolved run has moved every row of a table with no insertion, if no page was cut short or no row was deleted |
| Recovery.AbortedRowBlocks | src/lib/vault-persist.ts:1007-1014 | while a row that an aborted run rewrote is there, a later recovery from the same MEK whose pages were not cut short, or during which no row was deleted, does not resolve, unless the provider holds its credentials |
| Recovery.BuildRotation | src/routes/recover.tsx:100-116 | a request comes back exactly when the code opens the row and each secret opens or is dead beside one that opens; it is made from the row read, carries each secret exactly when it opens, seals the new MEK for the new password and code, and is new to the database |
| Recovery.RecoverVault | src/routes/recover.tsx:89-140 | a recovery that resolves took effect, the new password and code then opened the new MEK, the PQC columns were cleared or carried and the other columns stayed; when every read of the row succeeded, it resolves exactly when the write took effect and is still stored; the co-admin keys under the old workspace key are gone unless their deletion was refused silently; every failure has something behind it that happened, so an undisturbed run resolves; no row is lost in any outcome; without insertions, and with uncut pages or without deletions, every vault-sealed row is settled under the new MEK's subkeys and every other row is byte-identical |
| PasswordChange.SavedMeansOpens | src/lib/vault-persist.ts:1200-1206 | a verified row opens with the new password and code and with no other |
| PasswordChange.OldWaysIn | src/lib/vault-persist.ts:1177-1190 | when nobody else replaced the envelopes, the password and code of the loaded row still open the vault exactly when the change did not take effect |
| PasswordChange.LostSaveLocksOut | src/lib/vault-persist.ts:1186-1186 | the write lands and its answer is lost: the old password and code open nothing, and only the code that was never shown does |
| PasswordChange.ChangePassword | src/routes/app.tsx:1468-1501 | a saved change keeps the MEK of the row the page loaded, however long before, and the stored row then opens with the new password and code and with no other; after any answer, a lost one included, the old ways in tell whether the change took effect; a failed save means a lost answer, a conflict that the change did not take effect, and the read-back of what was stored never fails |
| Keyring.BestIsGreatest | src/lib/keyring.ts:222-228 | the latest entry is present and no generation exceeds it |
| Keyring.FindMeans | src/lib/keyring.ts:237-252 | a lookup by generation sees the set of entries, not their order |
| Keyring.DataKeyAtMeans | src/lib/keyring.ts:237-252 | a lookup gives exactly the entry which the named list holds at that generation, or names the missing generation |
| Keyring.LatestMeans | src/lib/keyring.ts:217-229 | the latest key of a kind is in its own list and none there is newer |
| Keyring.AddedIsLatest | src/lib/keyring.ts:198-211 | the generation added is the newest plus one and holds the fresh key; the other list, the secrets and every earlier entry stay |
| Keyring.FullTakesNoMore | src/lib/keyring.ts:198-203 | an addition is refused exactly when the list is full |
| Keyring.FreshKeyringHolds | src/lib/keyring.ts:160-187 | a generated keyring holds each key as generation 1 of its kind and no secret; setting the secrets changes nothing else |
| Keyring.AddKeepsValid | src/lib/keyring.ts:198-211 | adding a generation keeps the keyring valid exactly when the counter still rises in double precision |
| Keyring.AddCanBreakValidity | src/lib/keyring.ts:198-211 | a valid keyring at 2^53 that the addition breaks |
| Keyring.DecodeEntries | src/lib/keyring.ts:326-354 | the loop with its seen set computes the decoding, and whatever it returns is valid |
| Keyring.EntriesOfIff | src/lib/keyring.ts:326-354 | a list decodes to given entries exactly when it names them in that order, whatever else its items hold, and they are valid |
| Keyring.RefusedItem | src/lib/keyring.ts:335-352 | which complaint an item draws: its generation first, then its key, then a repetition |
| Keyring.DecodeKeyring | src/lib/keyring.ts:363-392 | the decoder computes the decoding, and whatever it returns is valid |
| Keyring.DecodedIff | src/lib/keyring.ts:363-392 | a text decodes to a keyring exactly when the keyring is valid and the text names its version, secrets and entries; an absent secret may be left out or null |
| Keyring.DecodeEncode | src/lib/keyring.ts:308-392 | decoding an encoded valid keyring gives it back with entries sorted by generation |
| Keyring.WireFields | src/lib/keyring.ts:308-324 | the field names of the canonical form and what each holds |
| Keyring.EncodingMeansContents | src/lib/keyring.ts:308-324 | two valid keyrings encode alike exactly when they hold the same entries and secrets |
| Keyring.SameContentsSameKeys | src/lib/keyring.ts:217-252 | keyrings with the same contents answer every lookup alike |
| Keyring.EncodedWellFormed | src/lib/keyring.ts:315-324 | an encoded keyring has no lone surrogate, so UTF-8 loses nothing of it |
| KeyringHistory.FreshKeyringHasHeadroom | src/lib/keyring.ts:160-168 | a generated keyring is valid and can never reach the rounding range |
| KeyringHistory.HeadroomIsExact | src/lib/keyring.ts:176-211 | every sequence of operations keeps a keyring valid exactly when it has headroom |
| KeyringHistory.KeysSurvive | src/lib/keyring.ts:176-252 | over any sequence of operations every earlier generation still yields the same key and the latest never decreases |
| KeyringHistory.ProjectionAgrees | src/lib/co-admin-keyring.ts:122-134 | a projection taken at any point agrees with the owner's keyring at any later point on every generation it holds, and its latest is the owner's at that point |
| KeyringBinding.AcceptedEpochs | src/lib/keyring.ts:410-438 | exactly the integers 1 to 2^53 - 1 are accepted, as number and as decimal string, with one canonical form each |
| KeyringBinding.AcceptedUserIds | src/lib/keyring.ts:441-470 | exactly the strings of UUID shape are accepted, and the canonical form is the same id in lower case |
| KeyringBinding.AadBytesMean | src/lib/keyring.ts:459-476 | keyring associated data are equal exactly when epochs are numerically equal and user ids match up to case |
| KeyringWrap.UnwrapWrap | src/lib/keyring.ts:485-537 | a wrapped keyring opens under its own MEK, salt and binding and under no other |
| KeyringWrap.BindingRequired | src/lib/keyring.ts:459-476 | wrapping succeeds exactly for a user id of UUID shape and an accepted epoch, and without them no blob opens |
| KeyringWrap.RewrapSucceedsIff | src/lib/keyring.ts:564-590 | a rewrap succeeds exactly when the blob opens and the epoch can rise; it gives the keyring that was wrapped and a blob that opens under the new MEK at the next epoch to the same contents |
| KeyringWrap.RacingRewraps | src/lib/keyring.ts:539-590 | racing rewraps have one winner per epoch, the epoch rises by one with each, and the stored blob always opens to unchanged contents |
| KeyringWrap.RollbackNeverOpens | src/lib/keyring.ts:472-590 | an older blob put back under a newer epoch never opens, under any key |
| KeyringWrap.WrappedVaultIsInitial | src/lib/keyring.ts:485-505 | every wrapped valid keyring is a start of the runs above |
| CoAdminKeyring.AadBytesInjective | src/lib/co-admin-keyring.ts:240-268 | the associated data are equal exactly for equal owner and grant, for all UTF-16 strings |
| CoAdminKeyring.DelimiterWouldCollide | src/lib/co-admin-keyring.ts:240-268 | a plain delimiter would give two pairs one text |
| CoAdminKeyring.SealsIff | src/lib/co-admin-keyring.ts:240-302 | sealing succeeds exactly with an owner, a grant and a key of 32 bytes |
| CoAdminKeyring.DecodedIff | src/lib/co-admin-keyring.ts:212-234 | a value decodes to a projection exactly when the projection is valid and the value names its version and entries |
| CoAdminKeyring.OpensOnlyWhereSealed | src/lib/co-admin-keyring.ts:296-345 | a sealed projection opens under its own key, owner and grant, and under no other, to its sorted contents |
| Json.ReadEscapedBody | src/lib/co-admin-keyring.ts:263-267 | reading undoes the string escaping on every UTF-16 string |
| Json.ShortestEscape | src/lib/co-admin-keyring.ts:263-267 | no shorter text reads back as the same code unit, so the printed form is the canonical one |
| Json.ParsePrint | src/lib/keyring.ts:315-324 | parsing a printed value gives it back |
| Json.SerializeInjective | src/lib/co-admin-keyring.ts:263-267 | the UTF-8 bytes of the JSON text determine the value, lone surrogates included |
| Utf8.DecodeEncode | src/lib/keyring.ts:485-537 | decoding undoes encoding on every string without lone surrogates |
| Utf8.FaithfulAlone | src/lib/member-grant.ts:39-45 | a string without lone surrogates and U+FFFD shares its bytes with no other |
| Utf8.UnfaithfulShares | src/lib/member-grant.ts:39-45 | every other string shares its bytes with one |
| Utf8.LoneSurrogatesCollide | src/lib/member-grant.ts:39-45 | the encoder alone maps two lone surrogates to the same bytes |
| MemberGrant.LenFieldOf | src/lib/member-grant.ts:39-45 | the array holds the big-endian length and the UTF-8 bytes |
| MemberGrant.Concatenate | src/lib/member-grant.ts:64-71 | the loop with the moving offset leaves the parts one after another |
| MemberGrant.CanonicalGrantBytes | src/lib/member-grant.ts:57-72 | the signed array is the four length-prefixed fields |
| MemberGrant.ReadGrant | src/lib/member-grant.ts:57-72 | a length-prefix reader gets back the context, the member, the workspace key and the wrapped MEK, in this order, and whatever follows |
| MemberGrant.GrantBytesInjective | src/lib/member-grant.ts:39-72 | equal bytes, or one a prefix of the other, mean equal UTF-8 fields shorter than 2^32 bytes |
| MemberGrant.SignedBytesNameOneGrant | src/lib/member-grant.ts:39-72 | without lone surrogates the signed bytes name one grant |
| MemberGrant.SignedBytesUniqueIff | src/lib/member-grant.ts:39-72 | the signed bytes of a grant are those of no other exactly when no field holds a lone surrogate or U+FFFD |
| MemberGrant.LoneSurrogateGrantsCollide | src/lib/member-grant.ts:39-45 | two different members with one signed message |
| CoAdmin.GrantStore.PersistCoAdminGrant | src/lib/co-admin.ts:495-568 | list entry first, key second, wherever it stops; a stored key is never replaced; the outcome exactly, when nothing goes wrong and when an answer is lost |
| CoAdmin.GrantStore.RevokeCoAdmin | src/lib/co-admin.ts:1162-1234 | key first, list entry second, wherever it stops; what each outcome means; the outcome exactly, when nothing goes wrong and when one statement is refused without an error: then whether the key is still there is reported truly |
| CoAdmin.GrantStore.ClearCoAdminListEntry | src/lib/co-admin.ts:1284-1306 | removes the list entry and no key; cleared exactly when the entry was there and nothing went wrong |
| CoAdmin.GrantStore.DeleteKeysOfWorkspace | src/lib/vault-persist.ts:986-992 | a recovery removes every stored key, unless the request is lost or the policy refuses it, and keeps every list entry; it reports a failure exactly when the request or its answer is lost |
| CoAdmin.EvidentThroughout | src/lib/co-admin.ts:495-568 | in every state of every run of attempts a stored key has its list entry |
| CoAdmin.GrantTouchesOneRecipient | src/lib/co-admin.ts:495-568 | a grant, however it ends, leaves every other recipient and every stored key alone |
| CoAdmin.RevokeTellsTheTruth | src/lib/co-admin.ts:1162-1234 | a revoke that returns leaves neither key nor entry, and keyRemoved means the key is gone |
| CoAdmin.ClearKeepsEvidentIff | src/lib/co-admin.ts:1284-1306 | clearing an entry keeps the rule exactly when no key is stored for it |
| CoAdmin.InterleavingBreaksIt | src/lib/co-admin.ts:1162-1234 | a grant between the two deletes of a revoke leaves a key nobody lists |
| CoAdminInterleaving.EvidentIffNoConflict | src/lib/co-admin.ts:495-568 | in any interleaving of grants and revokes every stored key keeps its list entry exactly when no key write clashes with a list delete for the same user: the entry going while the key is still there, or gone when it is written |
| CoAdminInterleaving.ClashFallsAfterKeyDelete | src/lib/co-admin.ts:1162-1234 | in a clash the key write falls after the key delete of the same revoke |
| CoAdminInterleaving.SequentialStaysEvident | src/lib/co-admin.ts:495-568 | attempts whose statements are not interrupted never clash |
| CoAdminInterleaving.RunIsSequential | src/lib/co-admin.ts:495-568 | every run of attempts one after another is such a schedule, with the same outcome |
| Csv.BuildCsv | src/lib/csv.ts:27-34 | the text is the joined records, and the strict reader returns exactly the header and rows |
| Csv.QuotedIff | src/lib/csv.ts:12-25 | a cell is quoted exactly when it holds a comma, a quote, a CR or an LF |
| Csv.ReadBuilt | src/lib/csv.ts:12-34 | reading undoes building for all cells in rows of at least one cell |
| Csv.LooseReaderAgrees | src/lib/csv.ts:27-34 | a reader that drops one ending line break agrees exactly when the last of several rows is not a lone empty cell |

## Left out

- Real cryptography and its failures: AES-GCM, HKDF, Argon2id, ML-KEM, ML-DSA and X25519 are symbolic, so truncated
  or bit-flipped ciphertexts are only "does not open"; base64 contents stay symbolic beyond the length `atob` accepts.
- Edits of a row in place by a concurrent sync during a rotation: the code does not defend against them.
- MetaServer.MetaServer.EnsurePqcKeypairs: its read and its write are one step, as the code assumes.
- Recovery.RecoverVault: starts from tables that no earlier aborted run has left an update in flight to, and from a
  vault with a recovery code.
- VaultContext.VaultContext.Unlock: the MEK of a vault older than version 2 is a parameter.
- VaultContext.VaultContext.ChangeVaultPassword: the verdict on the new password's strength is a parameter.
- Rotation.ReconcileEveryRow: models the two tables it is called with, not a list of any length; a lock of the vault
  while rows move is not modelled.
- Recovery.GuardStoredSecrets: answers with the row or nothing; the wording of messages is left out everywhere.
- CoAdmin.GrantStore.PersistCoAdminGrant: a statement whose answer was lost has landed or not when the attempt ends;
  statements that arrive later still are steps of `CoAdminInterleaving`.
- Keyring.DecodeKeyring: JSON texts other than compact ones are refused by the reader here, and numbers print as their
  exact decimal digits, which JavaScript does up to 2^53 only.
- Bytes that `TextEncoder` never produces: the UTF-8 reader refuses them, where `TextDecoder` substitutes U+FFFD.
- KeyringWrap.RacingRewraps: the compare-and-swap is the one the documentation asks of a caller; no caller is in the
  repository.
- Freezing a version 2 vault's subkeys as generation 1 (`src/lib/keyring.ts:646-691`): two derivations and two length checks.
- Sealing the co-admin key to a recipient (`src/lib/co-admin-keyring.ts:366-464`) and `wrapBlob64`: library
  cryptography around a fixed layout.
- Clean-up of co-admin grants after a recovery (`src/lib/co-admin-recovery.ts`): linear code that runs once the recovery is done.
- The normalisation of a typed recovery code (`src/lib/vault.ts:520-541`).
- User interface, routing, sessions, audit logging, analytics, connectors and rates.
