/** Re-encrypting two tables row by row until a sweep and a count agree (src/lib/vault-persist.ts). */
module Rotation {
  import opened Wrappers
  import opened Symbolic
  import opened Tables
  import opened RowMigration
  import opened VaultContext

  datatype Cause =
    | ReadFailed
    | CountErred
    | CountNotANumber
    | RowUnreadable(error: VaultError)
    | WriteFailed
    | RowNotWritten
    | UnexpectedSeal
    | NotReconciled

  /** Raised as a VaultRotationSafeError, whose message already warns. */
  predicate Safe(cause: Cause) {
    cause.RowNotWritten? || cause.UnexpectedSeal? || cause.NotReconciled?
  }

  /** Its own text tells the user not to close the page: the safe errors, and a count that is no number. */
  predicate TextWarns(cause: Cause) {
    Safe(cause) || cause.CountNotANumber?
  }

  /** An UPDATE went out and did not come back with its row. */
  predicate UpdateFailed(failure: Option<Cause>) {
    failure.Some? && (failure.value.WriteFailed? || failure.value.RowNotWritten?)
  }

  const CONNECTION_PAGE_SIZE: nat := 500
  const TRANSACTION_PAGE_SIZE: nat := 500
  const RECONCILE_MAX_PASSES: nat := 3

  class TableReconcile {
    const table: Table
    const vault: VaultContext
    const pageSize: nat
    ghost const keys: Keys

    /** The ids this run has proven it rewrote, or that had nothing to rewrite. */
    var migrated: set<Id>

    /** An update was answered with its row. */
    var anyRowWritten: bool

    /** Every id given to the row migration, as often as it was. */
    ghost var handed: multiset<Id>

    /** The row whose update may have landed although the run gave up on it. */
    ghost var stray: Option<Id>

    /** How many UPDATE statements this run has issued. */
    ghost var updates: nat

    ghost predicate KeysHeld()
      reads this, vault`mek, vault`salt, vault`migrationOldCredentialsKey, vault`migrationOldTransactionsKey
    {
      && vault.mek.Some? && vault.salt.Some?
      && vault.migrationOldCredentialsKey == Some(keys.oldCredentials)
      && vault.migrationOldTransactionsKey == Some(keys.oldTransactions)
      && keys.newCredentials == CredentialsKey(vault.mek.value, vault.salt.value)
      && keys.newTransactions == TransactionsKey(vault.mek.value, vault.salt.value)
    }

    /** The ids whose rows may differ from the original ones. */
    ghost function Touched(): set<Id>
      reads this
    {
      (if anyRowWritten then migrated else {}) + (if stray.Some? then {stray.value} else {})
    }

    /** Holds in every state of a run, aborted or not. */
    ghost predicate Valid()
      reads this, table
    {
      && pageSize > 0 && table.Valid()
      && RunSound(keys, table.history, table.original, table.inFlight, migrated, Touched())
      && (forall id | id in handed :: handed[id] == 1)
    }

    /** Holds until a row fails. */
    ghost predicate Running()
      reads this, table
    {
      stray.None? && table.inFlight.None? && forall id | id in handed :: id in migrated
    }

    ghost predicate Explained(cause: Cause, faultsBefore: Faults)
      reads this, table
    {
      match cause
      case ReadFailed => table.faults.unread > faultsBefore.unread
      case CountErred => table.faults.uncounted > faultsBefore.uncounted
      case CountNotANumber => table.faults.unnumbered > faultsBefore.unnumbered
      case WriteFailed => table.faults.unanswered > faultsBefore.unanswered
      case RowUnreadable(_) =>
        exists id | id in table.original :: Visible(table.original[id]) && !Readable(keys, table.original[id])
      case RowNotWritten =>
        || table.faults.refused > faultsBefore.refused
        || exists id | id in table.original :: id !in table.rows
      case UnexpectedSeal => false
      case NotReconciled => false
    }

    /** The server cuts no page short of the size this walk asks for. */
    predicate Uncut() {
      pageSize <= table.rowCap
    }

    /** What every call keeps: nothing on record is lost and nothing migrated is forgotten. */
    twostate predicate Continues()
      reads this, table
    {
      && Extends(old(table.history), old(table.original), table.history, table.original)
      && NoFewer(old(table.faults), table.faults)
      && old(migrated) <= migrated
      && updates >= old(updates)
    }

    constructor (table: Table, vault: VaultContext, pageSize: nat, ghost keys: Keys)
      requires pageSize > 0 && table.Valid() && table.inFlight.None?
      requires table.original == table.rows && table.history == [table.rows]
      ensures Valid() && Running()
      ensures this.table == table && this.vault == vault && this.pageSize == pageSize && this.keys == keys
      ensures migrated == {} && !anyRowWritten && updates == 0
    {
      this.table, this.vault, this.pageSize, this.keys := table, vault, pageSize, keys;
      migrated, anyRowWritten, handed, stray, updates := {}, false, multiset{}, None, 0;
    }

    /** The label under the credentials key, else under the transactions key, else as it is. */
    method MigrateLabel(before: Option<Column>) returns (after: Option<Column>)
      requires KeysHeld()
      modifies vault`nextNonce
      ensures LabelSettled(keys, before, if after.Some? then after else before)
      ensures after.None? <==>
                Stored(before) ==>
                  && Decrypt(before.value, keys.oldCredentials).Failure?
                  && Decrypt(before.value, keys.oldTransactions).Failure?
    {
      if !Stored(before) {
        return None;
      }
      var asCredentials := vault.MigrateCredentialsCiphertext(before.value);
      if asCredentials.Success? {
        return Some(asCredentials.value);
      }
      var asTransaction := vault.MigrateTransactionCiphertext(before.value);
      if asTransaction.Success? {
        return Some(asTransaction.value);
      }
      after := None;
    }

    /** Sends one UPDATE. Whatever becomes of it, only its row joins the touched ones. */
    method SendUpdate(id: Id, patch: Patch) returns (answer: UpdateAnswer)
      requires Valid() && Running()
      requires id in table.original && Visible(table.original[id]) && Settles(keys, table.original[id], patch)
      modifies table, this`updates
      ensures table.Valid() && Continues()
      ensures RunSound(keys, table.history, table.original, Some(Write(id, patch)), migrated, Touched() + {id})
      ensures table.inFlight.None? || (answer.NoAnswer? && table.inFlight == Some(Write(id, patch)))
      ensures answer == Changed(1) ==> id in table.rows && Settled(keys, table.original[id], table.rows[id])
      ensures answer.Changed? && answer.count != 1 ==>
                table.faults.refused > old(table.faults).refused || id !in table.rows
      ensures answer.NoAnswer? <==> table.faults.unanswered > old(table.faults).unanswered
      ensures updates == old(updates) + 1
    {
      ghost var history, original := table.history, table.original;
      ghost var met;
      answer, met := table.Update(id, patch);
      ghost var write := Write(id, patch);
      WriteKeepsRunSound(keys, history, original, migrated, Touched(), write, met, table.rows, table.history);
      updates := updates + 1;
    }

    /** One UPDATE; the row counts as migrated only when it comes back. */
    method WriteRow(id: Id, patch: Patch) returns (failure: Option<Cause>)
      requires Valid() && Running() && id !in migrated
      requires id in table.original && Visible(table.original[id]) && Settles(keys, table.original[id], patch)
      modifies this, table
      ensures Valid() && Continues()
      ensures failure.None? ==> Running() && migrated == old(migrated) + {id} && anyRowWritten
      ensures failure.Some? ==> migrated == old(migrated) && anyRowWritten == old(anyRowWritten) && stray == Some(id)
      ensures failure.Some? ==> Explained(failure.value, old(table.faults))
      ensures failure.Some? ==> failure.value.WriteFailed? || failure.value.RowNotWritten?
      ensures handed == old(handed) && updates == old(updates) + 1
    {
      hide RunSound, Settles, Settled;
      ghost var touched := Touched();
      var answer := SendUpdate(id, patch);
      if answer == Changed(1) {
        RecordedKeepsRunSound(
          keys, table.history, table.original, Write(id, patch), migrated, touched + {id}, migrated + {id});
        migrated := migrated + {id};
        anyRowWritten := true;
        failure := None;
        assert Touched() == migrated;
        assert Valid();
        assert Running();
      } else {
        SettledFlight(keys, table.history, table.original, Write(id, patch), migrated, touched + {id});
        stray := Some(id);
        assert Touched() == touched + {id};
        assert Valid();
        failure := Some(if answer.NoAnswer? then WriteFailed else RowNotWritten);
      }
    }

    method MigrateConnection(id: Id, row: Row) returns (failure: Option<Cause>)
      requires Valid() && Running() && KeysHeld() && row.Connection? && id !in migrated
      requires id in table.original && table.original[id] == row
      modifies this, table, vault`nextNonce
      ensures KeysHeld() && Valid() && Continues()
      ensures stray.Some? <==> UpdateFailed(failure)
      ensures failure.None? ==> Running() && migrated == old(migrated) + {id}
      ensures failure.Some? ==> migrated == old(migrated) && stray in {None, Some(id)}
      ensures failure.Some? ==> Explained(failure.value, old(table.faults))
      ensures updates <= old(updates) + 1 && handed == old(handed)
      ensures anyRowWritten == (old(anyRowWritten) || (failure.None? && updates > old(updates)))
      ensures failure.Some? && failure.value.RowUnreadable? <==> !Readable(keys, row)
      ensures failure.None? ==> (updates == old(updates) <==> NothingToMove(keys, row))
    {
      hide RunSound;
      var credentials: Option<Column> := None;
      if row.credentials != CREDENTIALS_HELD_BY_PROVIDER {
        var moved := vault.MigrateCredentialsCiphertext(row.credentials);
        if moved.Failure? {
          return Some(RowUnreadable(moved.error));
        }
        credentials := Some(moved.value);
      }
      var encryptedLabel := MigrateLabel(row.encryptedLabel);
      if credentials.None? && encryptedLabel.None? {
        ghost var touched := Touched();
        IntactKeepsRunSound(keys, table.history, table.original, migrated, touched, id);
        migrated := migrated + {id};
        assert Touched() == if anyRowWritten then touched + {id} else touched;
        return None;
      }
      failure := WriteRow(id, ConnectionPatch(credentials, encryptedLabel));
    }

    method MigrateTransaction(id: Id, row: Row) returns (failure: Option<Cause>)
      requires Valid() && Running() && KeysHeld() && row.Transaction? && id !in migrated
      requires id in table.original && table.original[id] == row
      modifies this, table, vault`nextNonce
      ensures KeysHeld() && Valid() && Continues()
      ensures stray.Some? <==> UpdateFailed(failure)
      ensures failure.None? ==> Running() && migrated == old(migrated) + {id}
      ensures failure.Some? ==> migrated == old(migrated) && stray in {None, Some(id)}
      ensures failure == Some(UnexpectedSeal) <==> !Visible(row)
      ensures failure.Some? && Visible(row) ==> Explained(failure.value, old(table.faults))
      ensures updates <= old(updates) + 1 && handed == old(handed)
      ensures anyRowWritten == (old(anyRowWritten) || (failure.None? && updates > old(updates)))
      ensures failure.Some? && failure.value.RowUnreadable? <==> Visible(row) && !Readable(keys, row)
      ensures failure.None? ==> updates == old(updates) + 1
    {
      if row.sealedUnder != SEALED_UNDER_VAULT_KEY {
        return Some(UnexpectedSeal);
      }
      var moved := vault.MigrateTransactionCiphertext(row.payload);
      if moved.Failure? {
        return Some(RowUnreadable(moved.error));
      }
      failure := WriteRow(id, TransactionPatch(moved.value));
    }

    /** One row of a page that this run has not migrated yet. */
    method MigrateRow(id: Id, row: Row) returns (failure: Option<Cause>)
      requires Valid() && Running() && KeysHeld() && id !in migrated
      requires id in table.original && table.original[id] == row && Visible(row)
      modifies this, table, vault`nextNonce
      ensures KeysHeld() && Valid() && Continues()
      ensures stray.Some? <==> UpdateFailed(failure)
      ensures failure.None? ==> Running() && migrated == old(migrated) + {id}
      ensures failure.Some? ==> migrated == old(migrated) && stray in {None, Some(id)}
      ensures failure.Some? ==> Explained(failure.value, old(table.faults))
      ensures handed == old(handed) + multiset{id}
      ensures updates <= old(updates) + 1
      ensures anyRowWritten == (old(anyRowWritten) || (failure.None? && updates > old(updates)))
    {
      match row {
        case Connection(_, _) => failure := MigrateConnection(id, row);
        case Transaction(_, _) => failure := MigrateTransaction(id, row);
      }
      handed := handed + multiset{id};
    }

    /** Others act; the run stays sound, also long after it gave up. */
    method Interfere()
      requires Valid()
      modifies table
      ensures Valid() && Continues() && table.history == old(table.history) + [table.rows]
      ensures old(Running()) ==> Running()
    {
      ghost var history, original := table.history, table.original;
      table.Interfere();
      OthersKeepRunSound(keys, history, original, table.inFlight, migrated, Touched(), table.rows);
    }

    /** A page; its rows are original ones, except those already migrated. */
    method ReadRows(after: Option<Id>) returns (page: Option<seq<(Id, Row)>>)
      requires Valid() && Running()
      modifies table
      ensures Valid() && Continues() && Running() && table.history == old(table.history) + [table.rows]
      ensures page.None? ==> table.faults.unread > old(table.faults).unread
      ensures page.Some? ==> IsPage(page.value, table.rows, after, Smaller(pageSize, table.rowCap)) && Given(page.value)
    {
      ghost var history, original := table.history, table.original;
      page := table.ReadPage(after, pageSize);
      OthersKeepRunSound(keys, history, original, table.inFlight, migrated, Touched(), table.rows);
      assert Latest(table.history) == table.rows;
    }

    /** Rows as a read gives them. */
    ghost predicate Given(page: seq<(Id, Row)>)
      reads this, table
    {
      forall i | 0 <= i < |page| ::
        && page[i].0 in table.original && Visible(page[i].1)
        && (page[i].0 !in migrated ==> table.original[page[i].0] == page[i].1)
    }

    method MigratePage(page: seq<(Id, Row)>) returns (failure: Option<Cause>)
      requires Valid() && Running() && KeysHeld() && Given(page)
      modifies this, table, vault`nextNonce
      ensures KeysHeld() && Valid() && Continues()
      ensures stray.Some? <==> UpdateFailed(failure)
      ensures failure.None? ==> Running() && forall i | 0 <= i < |page| :: page[i].0 in migrated
      ensures migrated <= old(migrated) + IdsOf(page)
      ensures failure.None? && migrated == old(migrated) ==> updates == old(updates)
      ensures anyRowWritten ==> old(anyRowWritten) || updates > old(updates)
      ensures failure.Some? ==> Explained(failure.value, old(table.faults))
    {
      hide RunSound, TableReconcile.KeysHeld;
      for k := 0 to |page|
        invariant Valid() && Continues() && Running() && KeysHeld() && Given(page)
        invariant forall i | 0 <= i < k :: page[i].0 in migrated
        invariant migrated <= old(migrated) + IdsOf(page)
        invariant migrated == old(migrated) ==> updates == old(updates)
        invariant anyRowWritten ==> old(anyRowWritten) || updates > old(updates)
      {
        var (id, row) := page[k];
        if id !in migrated {
          failure := MigrateRow(id, row);
          if failure.Some? {
            return;
          }
        }
      }
      failure := None;
    }

    /** One round of the walk: at is where in the history its page was read. */
    method SweepPage(cursor: Option<Id>) returns (page: Result<seq<(Id, Row)>, Cause>, ghost at: nat)
      requires Valid() && Running() && KeysHeld()
      modifies this, table, vault`nextNonce
      ensures KeysHeld() && Valid() && Continues() && |old(table.history)| == at < |table.history|
      ensures stray.Some? <==> page.Failure? && UpdateFailed(Some(page.error))
      ensures page.Success? ==>
                && Running()
                && IsPage(page.value, table.history[at], cursor, Smaller(pageSize, table.rowCap))
                && forall i | 0 <= i < |page.value| :: page.value[i].0 in migrated
      ensures forall id | id in migrated && id !in old(migrated) :: id in VisibleIds(table.history[at])
      ensures page.Success? && migrated == old(migrated) ==> updates == old(updates)
      ensures anyRowWritten ==> old(anyRowWritten) || updates > old(updates)
      ensures page.Failure? ==> Explained(page.error, old(table.faults))
    {
      at := |table.history|;
      var answer := ReadRows(cursor);
      if answer.None? {
        return Failure(ReadFailed), at;
      }
      var failure := MigratePage(answer.value);
      page := if failure.Some? then Failure(failure.value) else Success(answer.value);
    }

    /**
     * walkAndMigrate. The cursor strictly rises, so the walk ends; unless the
     * server cuts pages short of their size, it reaches every row that was
     * visible from its beginning to its end.
     */
    method Sweep() returns (failure: Option<Cause>)
      requires Valid() && Running() && KeysHeld()
      modifies this, table, vault`nextNonce
      ensures KeysHeld() && Valid() && Continues() && |table.history| > |old(table.history)|
      ensures stray.Some? <==> UpdateFailed(failure)
      ensures failure.None? ==> Running()
      ensures failure.None? && Uncut() ==>
                Covered(table.history, |old(table.history)|, |table.history|, migrated)
      ensures SeenSince(table.history, |old(table.history)|, old(migrated), migrated)
      ensures failure.None? && migrated == old(migrated) ==> updates == old(updates)
      ensures anyRowWritten ==> old(anyRowWritten) || updates > old(updates)
      ensures failure.Some? ==> Explained(failure.value, old(table.faults))
    {
      hide RunSound, TableReconcile.Valid;
      ghost var start := |table.history|;
      var lastSeenId: Option<Id> := None;
      while true
        invariant Valid() && Continues() && Running() && KeysHeld()
        invariant Uncut() ==> CoveredUpTo(table.history, start, lastSeenId, migrated)
        invariant SeenSince(table.history, start, old(migrated), migrated)
        invariant migrated == old(migrated) ==> updates == old(updates)
        invariant anyRowWritten ==> old(anyRowWritten) || updates > old(updates)
        decreases if lastSeenId.None? then ID_SPACE else ID_SPACE - 1 - lastSeenId.value
      {
        ghost var history, original, before := table.history, table.original, migrated;
        var answer, at := SweepPage(lastSeenId);
        PageSeen(history, table.history, start, at, old(migrated), before, migrated);
        ExtendsOn(old(table.history), old(table.original), history, original, table.history, table.original);
        if answer.Failure? {
          return Some(answer.error);
        }
        var page := answer.value;
        if Uncut() {
          LongerCoveredUpTo(history, table.history, start, lastSeenId, before, migrated);
          PageCovers(table.history, start, lastSeenId, migrated, page, pageSize, at);
        }
        if |page| == 0 || |page| < pageSize {
          break;
        }
        lastSeenId := Some(page[|page| - 1].0);
      }
      failure := None;
    }

    /** A sweep, and how many rows it added. */
    method SweepLap() returns (failure: Option<Cause>, added: nat, ghost lap: Lap)
      requires Valid() && Running() && KeysHeld()
      modifies this, table, vault`nextNonce
      ensures KeysHeld() && Valid() && Continues()
      ensures stray.Some? <==> UpdateFailed(failure)
      ensures failure.None? ==> Running() && LapDone(table.history, lap, Uncut(), migrated)
      ensures failure.None? ==> lap == Lap(|old(table.history)|, |table.history|, old(migrated), old(updates))
      ensures added > 0 <==> migrated != old(migrated)
      ensures failure.None? && added == 0 ==> updates == old(updates)
      ensures failure.Some? ==> Explained(failure.value, old(table.faults))
    {
      ghost var start, found, before := |table.history|, migrated, updates;
      var size := |migrated|;
      failure := Sweep();
      lap := Lap(start, |table.history|, found, before);
      assert table.history[..lap.end] == table.history;
      SubsetSize(found, migrated);
      added := |migrated| - size;
      if added == 0 {
        SameSizeSame(found, migrated);
      }
    }

    /** exactRowCount, under the walk's filter; a total above the migrated count leaves the table unsettled. */
    method CountLap(added: nat, ghost lap: Lap) returns (unsettled: Result<bool, Cause>)
      requires Valid() && Running() && KeysHeld()
      requires LapDone(table.history, lap, Uncut(), migrated) && lap.end == |table.history|
      requires added > 0 <==> migrated != lap.before
      modifies table
      ensures KeysHeld() && Valid() && Continues() && Running()
      ensures LapDone(table.history, lap, Uncut(), migrated) && lap.end < |table.history|
      ensures unsettled.Failure? ==> unsettled.error.CountErred? || unsettled.error.CountNotANumber?
      ensures unsettled.Failure? ==> Explained(unsettled.error, old(table.faults))
      ensures unsettled.Success? ==> (unsettled.value <==> !Agrees(table.history, lap, migrated))
    {
      ghost var history, original := table.history, table.original;
      var count := table.ExactRowCount();
      OthersKeepRunSound(keys, history, original, table.inFlight, migrated, Touched(), table.rows);
      LapStaysDone(history, table.history, lap, Uncut(), migrated);
      assert table.history[lap.end] == table.rows;
      match count {
        case CountFailed => unsettled := Failure(CountErred);
        case NoNumber => unsettled := Failure(CountNotANumber);
        case Counted(total) => unsettled := Success(added > 0 || total > |migrated|);
      }
    }
  }

  ghost predicate Ready(a: TableReconcile, b: TableReconcile)
    reads a, b, a.table, b.table
    reads a.vault`mek, a.vault`salt, a.vault`migrationOldCredentialsKey, a.vault`migrationOldTransactionsKey
    reads b.vault`mek, b.vault`salt, b.vault`migrationOldCredentialsKey, b.vault`migrationOldTransactionsKey
  {
    && a != b && a.table != b.table && a.stray.None? && b.stray.None?
    && a.Valid() && a.Running() && a.KeysHeld()
    && b.Valid() && b.Running() && b.KeysHeld()
  }

  /** The laps of one pass. */
  datatype Pass = Pass(a: Lap, b: Lap)

  /** The lap of t is over, and the count after it has been read. */
  ghost predicate Counted(t: TableReconcile, lap: Lap)
    reads t, t.table
  {
    LapDone(t.table.history, lap, t.Uncut(), t.migrated) && lap.end < |t.table.history|
  }

  /** Counts both tables after both were swept. */
  method CountBoth(a: TableReconcile, b: TableReconcile, addedA: nat, addedB: nat, ghost pass: Pass)
    returns (settled: Result<bool, Cause>)
    requires Ready(a, b)
    requires LapDone(a.table.history, pass.a, a.Uncut(), a.migrated) && pass.a.end == |a.table.history|
    requires LapDone(b.table.history, pass.b, b.Uncut(), b.migrated) && pass.b.end == |b.table.history|
    requires (addedA > 0 <==> a.migrated != pass.a.before) && (addedB > 0 <==> b.migrated != pass.b.before)
    modifies a.table, b.table
    ensures Ready(a, b) && a.Continues() && b.Continues()
    ensures settled.Failure? ==> settled.error.CountErred? || settled.error.CountNotANumber?
    ensures settled.Failure? ==>
              a.Explained(settled.error, old(a.table.faults)) || b.Explained(settled.error, old(b.table.faults))
    ensures settled.Success? ==>
              && Counted(a, pass.a) && Counted(b, pass.b)
              && (settled.value <==>
                    Agrees(a.table.history, pass.a, a.migrated) && Agrees(b.table.history, pass.b, b.migrated))
  {
    hide TableReconcile.Valid, TableReconcile.Running, TableReconcile.KeysHeld, LapDone, Agrees;
    var unsettledA := a.CountLap(addedA, pass.a);
    if unsettledA.Failure? {
      return Failure(unsettledA.error);
    }
    var unsettledB := b.CountLap(addedB, pass.b);
    if unsettledB.Failure? {
      return Failure(unsettledB.error);
    }
    settled := Success(!unsettledA.value && !unsettledB.value);
  }

  /** Sweeps every table, then counts every table. */
  method OnePass(a: TableReconcile, b: TableReconcile)
    returns (failure: Option<Cause>, settled: bool, ghost pass: Pass)
    requires Ready(a, b)
    modifies a, a.table, b, b.table, a.vault`nextNonce, b.vault`nextNonce
    ensures a.Valid() && a.Continues() && a.KeysHeld() && b.Valid() && b.Continues() && b.KeysHeld()
    ensures a.stray.Some? || b.stray.Some? ==> UpdateFailed(failure)
    ensures a.stray.None? || b.stray.None?
    ensures failure.None? ==>
              && Ready(a, b) && Counted(a, pass.a) && Counted(b, pass.b)
              && pass.a.start == |old(a.table.history)| && pass.b.start == |old(b.table.history)|
              && pass.a.before == old(a.migrated) && pass.b.before == old(b.migrated)
              && pass.a.updates == old(a.updates) && pass.b.updates == old(b.updates)
              && (settled <==>
                    Agrees(a.table.history, pass.a, a.migrated) && Agrees(b.table.history, pass.b, b.migrated))
    ensures failure.None? && settled ==> a.updates == old(a.updates) && b.updates == old(b.updates)
    ensures failure.Some? ==>
              && failure != Some(NotReconciled)
              && (|| a.Explained(failure.value, old(a.table.faults))
                  || b.Explained(failure.value, old(b.table.faults)))
  {
    hide TableReconcile.Valid, TableReconcile.Running, TableReconcile.KeysHeld, LapDone;
    settled := false;
    var addedA, addedB;
    ghost var lapA, lapB;
    failure, addedA, lapA := a.SweepLap();
    pass := Pass(lapA, lapA);
    if failure.Some? {
      return;
    }
    failure, addedB, lapB := b.SweepLap();
    pass := Pass(lapA, lapB);
    if failure.Some? {
      return;
    }
    var counted := CountBoth(a, b, addedA, addedB, pass);
    if counted.Failure? {
      failure := Some(counted.error);
      return;
    }
    settled := counted.value;
  }

  /** Later laps follow earlier ones. */
  ghost predicate InOrder(passes: seq<Pass>) {
    forall k | 0 < k < |passes| :: passes[k - 1].a.end < passes[k].a.start && passes[k - 1].b.end < passes[k].b.start
  }

  /** A row was inserted into one of the tables after these states. */
  ghost predicate Inserted(a: TableReconcile, b: TableReconcile, sinceA: nat, sinceB: nat)
    reads a, b, a.table, b.table
  {
    InsertedSince(a.table.history, sinceA) || InsertedSince(b.table.history, sinceB)
  }

  /** What a last pass proves: it reached every row that stayed, found nothing new, and the counts agree. */
  ghost predicate Confirmed(t: TableReconcile, lap: Lap)
    reads t, t.table
  {
    && LapDone(t.table.history, lap, t.Uncut(), t.migrated)
    && Agrees(t.table.history, lap, t.migrated)
    && lap.updates == t.updates
  }

  lemma ExplainedEarlier(t: TableReconcile, cause: Cause, before: Faults, earlier: Faults)
    requires NoFewer(earlier, before)
    ensures t.Explained(cause, before) ==> t.Explained(cause, earlier)
  {
  }

  lemma FirstPassDisagrees(a: TableReconcile, b: TableReconcile, pass: Pass)
    requires a.Valid() && b.Valid() && a.Uncut() && b.Uncut()
    requires Counted(a, pass.a) && Counted(b, pass.b)
    requires !Agrees(a.table.history, pass.a, a.migrated) || !Agrees(b.table.history, pass.b, b.migrated)
    ensures a.migrated != pass.a.before || b.migrated != pass.b.before || Inserted(a, b, pass.a.start, pass.b.start)
  {
    if !Agrees(a.table.history, pass.a, a.migrated) {
      FirstDisagreement(a.table.history, a.table.original, pass.a, a.migrated);
    } else {
      FirstDisagreement(b.table.history, b.table.original, pass.b, b.migrated);
    }
  }

  lemma LaterPassDisagrees(a: TableReconcile, b: TableReconcile, previous: Pass, pass: Pass)
    requires a.Valid() && b.Valid() && a.Uncut() && b.Uncut()
    requires Counted(a, pass.a) && Counted(b, pass.b)
    requires LapDone(a.table.history, previous.a, true, pass.a.before) && previous.a.end <= pass.a.start
    requires LapDone(b.table.history, previous.b, true, pass.b.before) && previous.b.end <= pass.b.start
    requires !Agrees(a.table.history, pass.a, a.migrated) || !Agrees(b.table.history, pass.b, b.migrated)
    ensures Inserted(a, b, previous.a.start, previous.b.start)
  {
    if !Agrees(a.table.history, pass.a, a.migrated) {
      LaterDisagreement(a.table.history, a.table.original, previous.a, pass.a, a.migrated);
    } else {
      LaterDisagreement(b.table.history, b.table.original, previous.b, pass.b, b.migrated);
    }
  }

  lemma InsertedSinceEarlier(a: TableReconcile, b: TableReconcile, sinceA: nat, sinceB: nat, laterA: nat, laterB: nat)
    requires a.Valid() && b.Valid() && sinceA <= laterA && sinceB <= laterB
    requires Inserted(a, b, laterA, laterB)
    ensures Inserted(a, b, sinceA, sinceB)
  {
    if InsertedSince(a.table.history, laterA) {
      InsertedEarlier(a.table.history, a.table.original, sinceA, laterA);
    } else {
      InsertedEarlier(b.table.history, b.table.original, sinceB, laterB);
    }
  }

  // ------------------------------------------------------- what a run leaves

  /** In every state of a run, aborted or not, a row is intact or settled, and at most one is settled unrecorded. */
  lemma EveryStateAccounted(t: TableReconcile, i: nat, id: Id)
    requires t.Valid() && i < |t.table.history| && id in t.table.history[i]
    ensures var first, now := t.table.original[id], t.table.history[i][id];
            && t.handed[id] <= 1
            && (now != first ==>
                  && Visible(first) && Settled(t.keys, first, now)
                  && ((t.anyRowWritten && id in t.migrated) || t.stray == Some(id)))
  {
  }

  /** The row was rewritten in some state, and is not among those an acknowledged update rewrote. */
  ghost predicate Unrecorded(t: TableReconcile, id: Id)
    reads t, t.table
  {
    && !(t.anyRowWritten && id in t.migrated)
    && exists i | 0 <= i < |t.table.history| && id in t.table.history[i] ::
         id in t.table.original && t.table.history[i][id] != t.table.original[id]
  }

  lemma UnrecordedIsStray(t: TableReconcile, id: Id)
    requires t.Valid() && Unrecorded(t, id)
    ensures t.stray == Some(id)
  {
    var i :| 0 <= i < |t.table.history| && id in t.table.history[i] &&
             id in t.table.original && t.table.history[i][id] != t.table.original[id];
    EveryStateAccounted(t, i, id);
  }

  /** Over both tables of a run, at most one row is rewritten unrecorded. */
  lemma OneUnrecorded(a: TableReconcile, b: TableReconcile)
    requires a.Valid() && b.Valid() && (a.stray.None? || b.stray.None?)
    ensures forall id: Id, id': Id | Unrecorded(a, id) && Unrecorded(a, id') :: id == id'
    ensures forall id: Id, id': Id | Unrecorded(b, id) && Unrecorded(b, id') :: id == id'
    ensures !exists id: Id, id': Id :: Unrecorded(a, id) && Unrecorded(b, id')
  {
    hide Unrecorded, TableReconcile.Valid;
    forall id: Id | Unrecorded(a, id)
      ensures a.stray == Some(id)
    {
      UnrecordedIsStray(a, id);
    }
    forall id: Id | Unrecorded(b, id)
      ensures b.stray == Some(id)
    {
      UnrecordedIsStray(b, id);
    }
  }

  /** Some state of the table held a row in another form than its first. */
  ghost predicate Rewritten(t: TableReconcile)
    reads t, t.table
  {
    exists i, id | 0 <= i < |t.table.history| && id in t.table.history[i] ::
      id in t.table.original && t.table.history[i][id] != t.table.original[id]
  }

  /** No row but the one that the run gave up on was ever in another form than its first. */
  ghost predicate OnlyStrayRewritten(t: TableReconcile)
    reads t, t.table
  {
    forall i, id | 0 <= i < |t.table.history| && id in t.table.history[i] && id in t.table.original ::
      t.table.history[i][id] != t.table.original[id] ==> t.stray == Some(id)
  }

  lemma UnwrittenMeansOnlyStray(t: TableReconcile)
    requires t.Valid() && !t.anyRowWritten
    ensures OnlyStrayRewritten(t)
  {
    forall i, id | 0 <= i < |t.table.history| && id in t.table.history[i]
      ensures t.table.history[i][id] != t.table.original[id] ==> t.stray == Some(id)
    {
      EveryStateAccounted(t, i, id);
    }
  }

  /** Behind a rewritten row is an answered update, or the one that the run gave up on. */
  lemma RewrittenMeansSent(t: TableReconcile)
    requires t.Valid() && Rewritten(t)
    ensures t.anyRowWritten || t.stray.Some?
  {
    var i, id :| 0 <= i < |t.table.history| && id in t.table.history[i]
                 && id in t.table.original && t.table.history[i][id] != t.table.original[id];
    EveryStateAccounted(t, i, id);
  }

  /** Every row that stayed through the last sweep is migrated, and was before that sweep began. */
  lemma ConfirmedReached(t: TableReconcile, lap: Lap, id: Id)
    requires Confirmed(t, lap) && t.Uncut() && VisibleBetween(t.table.history, lap.start, lap.end, id)
    ensures id in t.migrated && id in lap.before
  {
  }

  /** If no row was ever deleted, the rows counted are those migrated. */
  lemma NothingDeletedMeansCounted(t: TableReconcile, lap: Lap)
    requires t.Valid() && Confirmed(t, lap) && t.table.original.Keys <= t.table.rows.Keys
    ensures VisibleIds(t.table.history[lap.end]) == t.migrated
  {
    var h, last := t.table.history, |t.table.history| - 1;
    var swept: seq<Rows> := h[..lap.end];
    var live := VisibleIds(h[lap.end]);
    assert FirstsKnown(h[lap.end], t.table.original);
    forall id | id in t.migrated
      ensures id in live
    {
      assert Appeared(swept, id) && StaysGone(h, id);
      var i :| 0 <= i < |swept| && id in swept[i];
      assert id in h[i] && id in t.table.original.Keys;
      assert id in h[last];
    }
    CountBound(live, t.migrated);
  }

  /** What the final count adds, however short the pages were. */
  lemma ConfirmedBound(t: TableReconcile, lap: Lap)
    requires t.Valid() && Confirmed(t, lap)
    ensures var live := VisibleIds(t.table.history[lap.end]);
            && |live - t.migrated| <= |t.migrated - live|
            && (t.table.original.Keys <= t.table.history[lap.end].Keys ==> live == t.migrated)
            && (t.table.original.Keys <= t.table.rows.Keys ==> live == t.migrated)
  {
    CountBound(VisibleIds(t.table.history[lap.end]), t.migrated);
    if t.table.original.Keys <= t.table.rows.Keys {
      NothingDeletedMeansCounted(t, lap);
    }
  }

  /** Unless a row was inserted since the last sweep began, everything that is there has moved. */
  lemma ConfirmedMeansMoved(t: TableReconcile, lap: Lap)
    requires t.Valid() && Confirmed(t, lap) && t.Uncut() && !InsertedSince(t.table.history, lap.start)
    ensures AllMoved(t.keys, t.table.rows, t.table.original)
  {
    var h, last := t.table.history, |t.table.history| - 1;
    assert RowsAccounted(t.keys, h[last], t.table.original, t.Touched()) && FirstsKnown(h[last], t.table.original);
    forall id | id in t.table.rows && Visible(t.table.original[id])
      ensures Settled(t.keys, t.table.original[id], t.table.rows[id])
    {
      if id !in t.migrated {
        MissedMeansInserted(h, t.table.original, lap.start, lap.end, t.migrated, last, id);
      }
    }
  }

  /** However short the pages: if nothing went before the final count and nothing came after, everything has moved. */
  lemma NothingGoneMeansMoved(t: TableReconcile, lap: Lap)
    requires t.Valid() && Confirmed(t, lap)
    requires t.table.original.Keys <= t.table.history[lap.end].Keys
    ensures AllMoved(t.keys, t.table.rows, t.table.original)
  {
    var h, last := t.table.history, |t.table.history| - 1;
    ConfirmedBound(t, lap);
    assert RowsAccounted(t.keys, h[last], t.table.original, t.Touched()) && FirstsKnown(h[last], t.table.original);
    assert FirstsKnown(h[lap.end], t.table.original);
    forall id | id in t.table.rows && Visible(t.table.original[id])
      ensures Settled(t.keys, t.table.original[id], t.table.rows[id])
    {
      assert id in h[lap.end].Keys;
      assert id in VisibleIds(h[lap.end]);
    }
  }

  /**
   * A row that is there from the last sweep to the end of a confirmed run is one
   * that the run could open, if no page was cut short or no row was deleted.
   */
  lemma ConfirmedMeansReadable(t: TableReconcile, lap: Lap, id: Id)
    requires t.Valid() && Confirmed(t, lap)
    requires t.Uncut() || t.table.original.Keys <= t.table.rows.Keys
    requires VisibleBetween(t.table.history, lap.start, lap.end + 1, id) && id in t.table.rows
    ensures id in t.table.original && Readable(t.keys, t.table.original[id])
  {
    if t.Uncut() {
      assert VisibleBetween(t.table.history, lap.start, lap.end, id);
      ConfirmedReached(t, lap, id);
    } else {
      assert id in VisibleIds(t.table.history[lap.end]);
      NothingDeletedMeansCounted(t, lap);
    }
    SettledMeansReadable(t.keys, t.table.original[id], t.table.rows[id]);
  }

  /** Where both tables stood when a reconciliation began. */
  datatype Begin = Begin(a: nat, b: nat, foundA: set<Id>, foundB: set<Id>)

  /** What passes that did not settle leave: more than one of them prove an insertion. */
  ghost predicate Unsettled(a: TableReconcile, b: TableReconcile, begin: Begin, passes: seq<Pass>)
    reads a, b, a.table, b.table
  {
    if passes == [] then
      && |a.table.history| == begin.a && a.migrated == begin.foundA
      && |b.table.history| == begin.b && b.migrated == begin.foundB
    else
      var last := passes[|passes| - 1];
      && begin.a <= last.a.start && begin.b <= last.b.start && Counted(a, last.a) && Counted(b, last.b)
      && (a.Uncut() && b.Uncut() ==>
            || Inserted(a, b, begin.a, begin.b)
            || (|passes| == 1 && (a.migrated != begin.foundA || b.migrated != begin.foundB)))
  }

  /** One more pass after passes that did not settle. */
  method NextPass(a: TableReconcile, b: TableReconcile, ghost begin: Begin, ghost passes: seq<Pass>)
    returns (failure: Option<Cause>, settled: bool, ghost latest: Pass)
    requires Ready(a, b) && Unsettled(a, b, begin, passes)
    modifies a, a.table, b, b.table, a.vault`nextNonce, b.vault`nextNonce
    ensures a.Valid() && a.Continues() && a.KeysHeld() && b.Valid() && b.Continues() && b.KeysHeld()
    ensures a.stray.Some? || b.stray.Some? ==> UpdateFailed(failure)
    ensures a.stray.None? || b.stray.None?
    ensures failure.Some? ==>
              && failure != Some(NotReconciled)
              && (|| a.Explained(failure.value, old(a.table.faults))
                  || b.Explained(failure.value, old(b.table.faults)))
    ensures failure.None? ==>
              && Ready(a, b)
              && (passes != [] ==>
                    && passes[|passes| - 1].a.end < latest.a.start
                    && passes[|passes| - 1].b.end < latest.b.start)
    ensures failure.None? && settled ==>
              && Confirmed(a, latest.a) && Confirmed(b, latest.b)
              && (a.Uncut() && b.Uncut() && !Inserted(a, b, begin.a, begin.b) ==>
                    |passes| == if a.migrated == begin.foundA && b.migrated == begin.foundB then 0 else 1)
    ensures failure.None? && !settled ==>
              && Unsettled(a, b, begin, passes + [latest])
              && (a.Uncut() && b.Uncut() && passes != [] ==>
                    Inserted(a, b, passes[|passes| - 1].a.start, passes[|passes| - 1].b.start))
  {
    hide TableReconcile.Valid, TableReconcile.Running, TableReconcile.KeysHeld, TableReconcile.Uncut,
      TableReconcile.Explained, LapDone, InsertedSince;
    ghost var historyA, historyB := a.table.history, b.table.history;
    failure, settled, latest := OnePass(a, b);
    if failure.Some? {
      return;
    }
    if passes != [] {
      ghost var last := passes[|passes| - 1];
      LapStaysDone(historyA, a.table.history, last.a, a.Uncut(), latest.a.before);
      LapStaysDone(historyB, b.table.history, last.b, b.Uncut(), latest.b.before);
    }
    InsertedStays(historyA, a.table.history, begin.a);
    InsertedStays(historyB, b.table.history, begin.b);
    if !settled && a.Uncut() && b.Uncut() {
      if passes == [] {
        FirstPassDisagrees(a, b, latest);
      } else {
        ghost var last := passes[|passes| - 1];
        LaterPassDisagrees(a, b, last, latest);
        InsertedSinceEarlier(a, b, begin.a, begin.b, last.a.start, last.b.start);
      }
    }
  }

  /**
   * reconcileEveryRow. It returns only past a pass that confirms both tables;
   * it gives up after RECONCILE_MAX_PASSES more passes than one, and then a row
   * was inserted since the second-last of them began, unless pages were cut short.
   */
  method ReconcileEveryRow(a: TableReconcile, b: TableReconcile)
    returns (failure: Option<Cause>, ghost passes: seq<Pass>)
    requires Ready(a, b)
    modifies a, a.table, b, b.table, a.vault`nextNonce, b.vault`nextNonce
    ensures a.Valid() && a.Continues() && a.KeysHeld() && b.Valid() && b.Continues() && b.KeysHeld()
    ensures a.stray.Some? || b.stray.Some? ==> UpdateFailed(failure)
    ensures a.stray.None? || b.stray.None?
    ensures |passes| <= RECONCILE_MAX_PASSES + 1 && InOrder(passes)
    ensures failure.None? ==>
              && passes != [] && Ready(a, b)
              && Confirmed(a, passes[|passes| - 1].a) && Confirmed(b, passes[|passes| - 1].b)
    ensures failure == Some(NotReconciled) ==> |passes| == RECONCILE_MAX_PASSES + 1
    ensures failure == Some(NotReconciled) && a.Uncut() && b.Uncut() ==>
              Inserted(a, b, passes[|passes| - 2].a.start, passes[|passes| - 2].b.start)
    ensures failure.Some? && failure != Some(NotReconciled) ==>
              || a.Explained(failure.value, old(a.table.faults))
              || b.Explained(failure.value, old(b.table.faults))
    ensures a.Uncut() && b.Uncut() && !Inserted(a, b, |old(a.table.history)|, |old(b.table.history)|) ==>
              && failure != Some(NotReconciled)
              && (failure.None? ==>
                    |passes| == if a.migrated == old(a.migrated) && b.migrated == old(b.migrated) then 1 else 2)
  {
    hide TableReconcile.Valid, TableReconcile.Running, TableReconcile.KeysHeld, TableReconcile.Uncut,
      TableReconcile.Explained, Confirmed, Counted, Inserted;
    passes := [];
    ghost var begin := Begin(|a.table.history|, |b.table.history|, a.migrated, b.migrated);
    var pass := 0;
    while true
      invariant Ready(a, b) && a.Continues() && b.Continues()
      invariant |passes| == pass <= RECONCILE_MAX_PASSES && InOrder(passes)
      invariant Unsettled(a, b, begin, passes)
      decreases RECONCILE_MAX_PASSES - pass
    {
      ghost var faultsA, faultsB := a.table.faults, b.table.faults;
      var settled; ghost var latest;
      failure, settled, latest := NextPass(a, b, begin, passes);
      if failure.Some? {
        ExplainedEarlier(a, failure.value, faultsA, old(a.table.faults));
        ExplainedEarlier(b, failure.value, faultsB, old(b.table.faults));
        return;
      }
      passes := passes + [latest];
      if settled {
        return;
      }
      if pass >= RECONCILE_MAX_PASSES {
        failure := Some(NotReconciled);
        return;
      }
      pass := pass + 1;
    }
  }
}
