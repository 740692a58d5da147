/** What re-encrypting a row means, and what stays true of every row of a run, in terms of values. */
module RowMigration {
  import opened Wrappers
  import opened Symbolic
  import opened Tables

  /** The two row subkeys under the MEK that goes and the MEK that comes. */
  datatype Keys = Keys(oldCredentials: Key, oldTransactions: Key, newCredentials: Key, newTransactions: Key)

  /** Credentials and payloads must open; a label that does not open is left alone. */
  predicate Readable(keys: Keys, row: Row) {
    match row
    case Connection(c, _) => c == CREDENTIALS_HELD_BY_PROVIDER || Decrypt(c, keys.oldCredentials).Success?
    case Transaction(p, _) => Decrypt(p, keys.oldTransactions).Success?
  }

  /** Nothing on the row opens under this vault's old keys. */
  predicate NothingToMove(keys: Keys, row: Row) {
    && row.Connection? && row.credentials == CREDENTIALS_HELD_BY_PROVIDER
    && (Stored(row.encryptedLabel) ==>
          && Decrypt(row.encryptedLabel.value, keys.oldCredentials).Failure?
          && Decrypt(row.encryptedLabel.value, keys.oldTransactions).Failure?)
  }

  /** A label keeps its plaintext and the key family it opened under. */
  predicate LabelSettled(keys: Keys, before: Option<Column>, after: Option<Column>) {
    if !Stored(before) then
      after == before
    else if Decrypt(before.value, keys.oldCredentials).Success? then
      after.Some? && Resealed(before.value, after.value, keys.oldCredentials, keys.newCredentials)
    else if Decrypt(before.value, keys.oldTransactions).Success? then
      after.Some? && Resealed(before.value, after.value, keys.oldTransactions, keys.newTransactions)
    else
      after == before
  }

  /** The marker is kept byte for byte; anything else is the same plaintext under the new key. */
  predicate CredentialsSettled(keys: Keys, before: Column, after: Column) {
    if before == CREDENTIALS_HELD_BY_PROVIDER then after == before
    else Resealed(before, after, keys.oldCredentials, keys.newCredentials)
  }

  predicate Settled(keys: Keys, before: Row, after: Row) {
    match (before, after)
    case (Connection(c, l), Connection(c', l')) => CredentialsSettled(keys, c, c') && LabelSettled(keys, l, l')
    case (Transaction(p, s), Transaction(p', s')) =>
      s == SEALED_UNDER_VAULT_KEY && s' == s && Resealed(p, p', keys.oldTransactions, keys.newTransactions)
    case _ => false
  }

  predicate Settles(keys: Keys, before: Row, patch: Patch) {
    Settled(keys, before, Patched(before, patch))
  }

  /** An update that arrives again, or arrives late, settles a settled row the same way. */
  lemma LateUpdateSettles(keys: Keys, before: Row, now: Row, patch: Patch)
    requires Settles(keys, before, patch)
    requires now == before || Settled(keys, before, now)
    ensures Settled(keys, before, Patched(now, patch))
  {
  }

  lemma SettledMeansReadable(keys: Keys, before: Row, after: Row)
    requires Settled(keys, before, after)
    ensures Readable(keys, before)
  {
  }

  /** What an aborted run settled under keys that are lost cannot be opened again, except a provider-held connection. */
  lemma AbortedRowUnreadableIff(aborted: Keys, later: Keys, before: Row, after: Row)
    requires Settled(aborted, before, after)
    requires aborted.newCredentials != later.oldCredentials && aborted.newTransactions != later.oldTransactions
    ensures !Readable(later, after) <==> !(before.Connection? && before.credentials == CREDENTIALS_HELD_BY_PROVIDER)
  {
  }

  // -------------------------------------------------------- every row of a run

  /** Each row is the original one, or that row settled and among the touched. */
  ghost predicate RowsAccounted(keys: Keys, rows: Rows, original: Rows, touched: set<Id>) {
    forall id | id in rows ::
      && id in original
      && (|| rows[id] == original[id]
          || (id in touched && Visible(original[id]) && Settled(keys, original[id], rows[id])))
  }

  /** A migrated row that is still there is settled. */
  ghost predicate MigratedSettled(keys: Keys, rows: Rows, original: Rows, migrated: set<Id>) {
    forall id | id in migrated ::
      && id in original && Visible(original[id])
      && (id in rows ==> Settled(keys, original[id], rows[id]))
  }

  /** An update that may still arrive would settle its row. */
  ghost predicate FlightSettles(keys: Keys, flight: Option<Write>, original: Rows, touched: set<Id>) {
    flight.Some? ==>
      && flight.value.id in touched && flight.value.id in original && Visible(original[flight.value.id])
      && Settles(keys, original[flight.value.id], flight.value.patch)
  }

  ghost predicate RunSound(
    keys: Keys, history: seq<Rows>, original: Rows, flight: Option<Write>, migrated: set<Id>, touched: set<Id>)
  {
    && history != []
    && (forall i | 0 <= i < |history| :: RowsAccounted(keys, history[i], original, touched))
    && MigratedSettled(keys, Latest(history), original, migrated)
    && FlightSettles(keys, flight, original, touched)
  }

  lemma RowAfterOthers(
    keys: Keys, history: seq<Rows>, original: Rows, flight: Option<Write>, migrated: set<Id>, touched: set<Id>,
    rows': Rows, id: Id)
    requires RunSound(keys, history, original, flight, migrated, touched)
    requires OthersMay(Latest(history), flight, original.Keys, rows')
    requires id in rows'
    ensures var original' := Firsts(original, rows');
            && id in original'
            && (|| rows'[id] == original'[id]
                || (id in touched && Visible(original'[id]) && Settled(keys, original'[id], rows'[id])))
            && (id in migrated ==> Settled(keys, original'[id], rows'[id]))
  {
  }

  /** Whatever others do, and whenever the update in flight lands, the run stays sound. */
  lemma OthersKeepRunSound(
    keys: Keys, history: seq<Rows>, original: Rows, flight: Option<Write>, migrated: set<Id>, touched: set<Id>,
    rows': Rows)
    requires RunSound(keys, history, original, flight, migrated, touched)
    requires OthersMay(Latest(history), flight, original.Keys, rows')
    ensures RunSound(keys, history + [rows'], Firsts(original, rows'), flight, migrated, touched)
  {
    var h, o := history + [rows'], Firsts(original, rows');
    forall i | 0 <= i < |h|
      ensures RowsAccounted(keys, h[i], o, touched)
    {
      if i < |history| {
        assert h[i] == history[i] && RowsAccounted(keys, history[i], original, touched);
      } else {
        forall id | id in rows'
          ensures id in o
          ensures rows'[id] == o[id] || (id in touched && Visible(o[id]) && Settled(keys, o[id], rows'[id]))
        {
          RowAfterOthers(keys, history, original, flight, migrated, touched, rows', id);
        }
      }
    }
    forall id | id in migrated && id in rows'
      ensures Settled(keys, o[id], rows'[id])
    {
      RowAfterOthers(keys, history, original, flight, migrated, touched, rows', id);
    }
  }

  /** An update that landed, or did not, or still may: only its row joins the touched ones. */
  lemma WriteKeepsRunSound(
    keys: Keys, history: seq<Rows>, original: Rows, migrated: set<Id>, touched: set<Id>,
    write: Write, met: Rows, rows: Rows, history': seq<Rows>)
    requires RunSound(keys, history, original, None, migrated, touched)
    requires OthersMay(Latest(history), None, original.Keys, met)
    requires write.id in original && Visible(original[write.id]) && Settles(keys, original[write.id], write.patch)
    requires rows == met || Landed(met, rows, write)
    requires history' == history + [met] + [rows] || (rows == met && history' == history + [met])
    ensures RunSound(keys, history', Firsts(original, met), Some(write), migrated, touched + {write.id})
    ensures Landed(met, rows, write) ==> Settled(keys, Firsts(original, met)[write.id], rows[write.id])
  {
    var o := Firsts(original, met);
    OthersKeepRunSound(keys, history, original, None, migrated, touched, met);
    WiderRunSound(keys, history + [met], o, write, migrated, touched);
    if write.id in met {
      RowAfterOthers(keys, history, original, None, migrated, touched, met, write.id);
      LateUpdateSettles(keys, o[write.id], met[write.id], write.patch);
    }
    if history' != history + [met] {
      OthersKeepRunSound(keys, history + [met], o, Some(write), migrated, touched + {write.id}, rows);
      assert rows.Keys <= o.Keys;
      NoNewFirsts(o, rows);
    }
  }

  lemma WiderRunSound(keys: Keys, history: seq<Rows>, original: Rows, write: Write, migrated: set<Id>, touched: set<Id>)
    requires RunSound(keys, history, original, None, migrated, touched)
    requires write.id in original && Visible(original[write.id]) && Settles(keys, original[write.id], write.patch)
    ensures RunSound(keys, history, original, Some(write), migrated, touched + {write.id})
  {
  }

  /** A row with nothing to move counts as migrated as it is. */
  lemma IntactKeepsRunSound(
    keys: Keys, history: seq<Rows>, original: Rows, migrated: set<Id>, touched: set<Id>, id: Id)
    requires RunSound(keys, history, original, None, migrated, touched)
    requires id in original && Visible(original[id]) && id !in touched && Settled(keys, original[id], original[id])
    ensures RunSound(keys, history, original, None, migrated + {id}, touched)
    ensures RunSound(keys, history, original, None, migrated + {id}, touched + {id})
  {
    assert RowsAccounted(keys, Latest(history), original, touched);
  }

  lemma SettledFlight(
    keys: Keys, history: seq<Rows>, original: Rows, write: Write, migrated: set<Id>, touched: set<Id>)
    requires RunSound(keys, history, original, Some(write), migrated, touched)
    ensures RunSound(keys, history, original, None, migrated, touched)
  {
  }

  lemma RecordedKeepsRunSound(
    keys: Keys, history: seq<Rows>, original: Rows, write: Write, migrated: set<Id>, touched: set<Id>,
    touched': set<Id>)
    requires RunSound(keys, history, original, Some(write), migrated, touched)
    requires write.id in Latest(history) && Settled(keys, original[write.id], Latest(history)[write.id])
    requires touched <= touched'
    ensures RunSound(keys, history, original, None, migrated + {write.id}, touched')
  {
  }

  /** Every row that the vault's keys seal is settled; every other row is byte for byte what it was. */
  ghost predicate AllMoved(keys: Keys, rows: Rows, original: Rows) {
    forall id | id in rows ::
      && id in original
      && (if Visible(original[id]) then Settled(keys, original[id], rows[id]) else rows[id] == original[id])
  }

  /** Every row is byte for byte what it was, or settled and sealed by the vault's keys. */
  ghost predicate NoneLost(keys: Keys, rows: Rows, original: Rows) {
    forall id | id in rows ::
      && id in original
      && (rows[id] == original[id] || (Visible(original[id]) && Settled(keys, original[id], rows[id])))
  }

  // ---------------------------------------------------------------- coverage

  /** Visible in every state from one index up to another. */
  ghost predicate VisibleBetween(history: seq<Rows>, start: nat, end: nat, id: Id)
    requires start <= end <= |history|
  {
    forall i | start <= i < end :: id in VisibleIds(history[i])
  }

  ghost predicate Covered(history: seq<Rows>, start: nat, end: nat, migrated: set<Id>)
    requires start <= end <= |history|
  {
    forall id | VisibleBetween(history, start, end, id) :: id in migrated
  }

  /** The same, for the ids a walk has passed. */
  ghost predicate CoveredUpTo(history: seq<Rows>, start: nat, cursor: Option<Id>, migrated: set<Id>)
    requires start <= |history|
  {
    forall id | VisibleBetween(history, start, |history|, id) && !Above(id, cursor) :: id in migrated
  }

  /** Every id in more than before was seen in some state since start. */
  ghost predicate SeenSince(history: seq<Rows>, start: nat, before: set<Id>, more: set<Id>) {
    forall id | id in more && id !in before :: exists i | start <= i < |history| :: id in VisibleIds(history[i])
  }

  lemma LongerCoveredUpTo(
    history: seq<Rows>, history': seq<Rows>, start: nat, cursor: Option<Id>, migrated: set<Id>, migrated': set<Id>)
    requires start <= |history| && history <= history' && migrated <= migrated'
    requires CoveredUpTo(history, start, cursor, migrated)
    ensures CoveredUpTo(history', start, cursor, migrated')
  {
  }

  /** Migrating a page moves the covered part past it, or to the end when the page was short. */
  lemma PageCovers(
    history: seq<Rows>, start: nat, cursor: Option<Id>, migrated: set<Id>, page: seq<(Id, Row)>, size: nat, at: nat)
    requires start <= at < |history| && IsPage(page, history[at], cursor, size) && size > 0
    requires CoveredUpTo(history, start, cursor, migrated)
    requires forall i | 0 <= i < |page| :: page[i].0 in migrated
    ensures |page| < size ==> Covered(history, start, |history|, migrated)
    ensures |page| == size ==> CoveredUpTo(history, start, Some(page[|page| - 1].0), migrated)
  {
  }

  lemma PageSeen(
    history: seq<Rows>, history': seq<Rows>, start: nat, at: nat, before: set<Id>, migrated: set<Id>,
    migrated': set<Id>)
    requires history <= history' && start <= at < |history'| && SeenSince(history, start, before, migrated)
    requires forall id | id in migrated' && id !in migrated :: id in VisibleIds(history'[at])
    ensures SeenSince(history', start, before, migrated')
  {
  }

  /** Some row appeared after this index. */
  ghost predicate InsertedSince(history: seq<Rows>, start: nat) {
    exists i | start <= i < |history| :: !(history[i].Keys <= history[start].Keys)
  }

  lemma InsertedStays(history: seq<Rows>, history': seq<Rows>, start: nat)
    requires history <= history'
    ensures InsertedSince(history, start) ==> InsertedSince(history', start)
  {
  }

  lemma InsertedEarlier(history: seq<Rows>, original: Rows, start: nat, later: nat)
    requires TrailSound(history, original) && start <= later && InsertedSince(history, later)
    ensures InsertedSince(history, start)
  {
    var i :| later <= i < |history| && !(history[i].Keys <= history[later].Keys);
    var id :| id in history[i].Keys && id !in history[later].Keys;
    assert StaysGone(history, id);
    assert id !in history[start];
  }

  /** A row that a completed sweep left and that is visible afterwards was inserted since the sweep began. */
  lemma MissedMeansInserted(
    history: seq<Rows>, original: Rows, start: nat, end: nat, migrated: set<Id>, i: nat, id: Id)
    requires TrailSound(history, original)
    requires start < end <= i < |history| && Covered(history, start, end, migrated)
    requires id in VisibleIds(history[i]) && id !in migrated
    ensures InsertedSince(history, start)
  {
    var k :| start <= k < end && id !in VisibleIds(history[k]);
    assert FirstsKnown(history[i], original) && FirstsKnown(history[k], original) && StaysGone(history, id);
    assert id !in history[k];
    assert id !in history[start];
    assert id in history[i].Keys && id !in history[start].Keys;
  }

  lemma {:induction false} SubsetSize<T>(a: set<T>, b: set<T>)
    requires a <= b
    ensures |a| <= |b|
  {
    if a != {} {
      var x :| x in a;
      SubsetSize(a - {x}, b - {x});
    }
  }

  /** So was some row when the exact count exceeds what the sweep has migrated. */
  lemma CountAboveMeansInserted(
    history: seq<Rows>, original: Rows, start: nat, end: nat, migrated: set<Id>, counted: nat)
    requires TrailSound(history, original)
    requires start < end <= counted < |history| && Covered(history, start, end, migrated)
    requires |VisibleIds(history[counted])| > |migrated|
    ensures InsertedSince(history, start)
  {
    var live := VisibleIds(history[counted]);
    if live <= migrated {
      SubsetSize(live, migrated);
    }
    var id :| id in live && id !in migrated;
    MissedMeansInserted(history, original, start, end, migrated, counted, id);
  }

  // ------------------------------------------------------------------- passes

  /**
   * One table's part of a pass: the sweep saw the states from start up to end,
   * the count saw the one at end; before and updates are as the sweep found them.
   */
  datatype Lap = Lap(start: nat, end: nat, before: set<Id>, updates: nat)

  /** A finished lap of a walk whose pages were not cut short, when uncut. */
  ghost predicate LapDone(history: seq<Rows>, lap: Lap, uncut: bool, migrated: set<Id>) {
    && lap.start < lap.end <= |history|
    && lap.before <= migrated
    && SeenSince(history, lap.start, lap.before, migrated)
    && (forall id {:trigger Appeared(history[..lap.end], id)} | id in migrated :: Appeared(history[..lap.end], id))
    && (uncut ==> Covered(history, lap.start, lap.end, migrated))
  }

  /** The lap found nothing new and the count no more rows than were migrated. */
  ghost predicate Agrees(history: seq<Rows>, lap: Lap, migrated: set<Id>) {
    lap.end < |history| && migrated == lap.before && |VisibleIds(history[lap.end])| <= |migrated|
  }

  lemma LapStaysDone(history: seq<Rows>, history': seq<Rows>, lap: Lap, uncut: bool, migrated: set<Id>)
    requires LapDone(history, lap, uncut, migrated) && history <= history'
    ensures LapDone(history', lap, uncut, migrated)
  {
    assert history'[..lap.end] == history[..lap.end];
  }

  /** A first lap that does not agree has migrated something, or a row was inserted during it. */
  lemma FirstDisagreement(history: seq<Rows>, original: Rows, lap: Lap, migrated: set<Id>)
    requires TrailSound(history, original) && LapDone(history, lap, true, migrated)
    requires lap.end < |history| && !Agrees(history, lap, migrated)
    ensures migrated != lap.before || InsertedSince(history, lap.start)
  {
    if migrated == lap.before {
      CountAboveMeansInserted(history, original, lap.start, lap.end, migrated, lap.end);
    }
  }

  /** A later lap that does not agree proves that a row was inserted since the lap before it began. */
  lemma LaterDisagreement(history: seq<Rows>, original: Rows, previous: Lap, lap: Lap, migrated: set<Id>)
    requires TrailSound(history, original) && LapDone(history, lap, true, migrated)
    requires LapDone(history, previous, true, lap.before) && previous.end <= lap.start
    requires lap.end < |history| && !Agrees(history, lap, migrated)
    ensures InsertedSince(history, previous.start)
  {
    if migrated == lap.before {
      FirstDisagreement(history, original, lap, migrated);
      InsertedEarlier(history, original, previous.start, lap.start);
    } else {
      var id :| id in migrated && id !in lap.before;
      var i :| lap.start <= i < |history| && id in VisibleIds(history[i]);
      MissedMeansInserted(history, original, previous.start, previous.end, lap.before, i, id);
    }
  }

  /**
   * The bound is tight: between the one read of the last sweep and the count a
   * migrated row goes and a new one comes; both agree and the new row is left.
   */
  lemma AgreementMayLeaveARow(row: Row)
    requires Visible(row)
    ensures var history: seq<Rows> := [map[5 := row], map[3 := row]];
            var lap := Lap(0, 1, {5}, 0);
            && IsPage([(5, row)], history[0], None, 500)
            && TrailSound(history, map[5 := row, 3 := row])
            && LapDone(history, lap, true, {5}) && Agrees(history, lap, {5})
            && 3 in VisibleIds(Latest(history)) - {5}
  {
    var history: seq<Rows> := [map[5 := row], map[3 := row]];
    assert 5 in history[0] && 3 in history[1] && 5 in history[..1][0];
    assert VisibleIds(history[0]) == {5} && VisibleIds(history[1]) == {3};
    assert ([(5, row)])[0].0 == 5;
    assert forall id: Id | VisibleBetween(history, 0, 1, id) :: id in VisibleIds(history[0]);
  }

  lemma SameSizeSame<T>(a: set<T>, b: set<T>)
    requires a <= b && |a| == |b|
    ensures a == b
  {
    if a != b {
      var x :| x in b && x !in a;
      SubsetSize(a, b - {x});
    }
  }

  /** The bound a count gives: rows left behind are at most the migrated rows since gone. */
  lemma CountBound(live: set<Id>, migrated: set<Id>)
    requires |live| <= |migrated|
    ensures |live - migrated| <= |migrated - live|
    ensures migrated <= live ==> live == migrated
  {
  }
}
