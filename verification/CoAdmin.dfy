/**
 * Granting and revoking a co-admin: two rows in two tables, written and removed
 * in an order that leaves the list entry rather than the access (src/lib/co-admin.ts).
 */
module CoAdmin {
  import opened Wrappers
  import opened Text

  type UserId = Utf16

  /** A wrapped_data_keys row: the v2 blob, or the v3 key and keyring projection. */
  datatype KeyRow =
    | BlobRow(wrappedCiphertext: Utf16, grantSig: Utf16)
    | CakRow(grantId: Utf16, wrappedCak: Utf16, coadminKeyringCiphertext: Utf16, grantSig: Utf16)

  /** One owner's rows: who is listed, and who holds a stored key. */
  datatype Tables = Tables(admins: set<UserId>, keys: map<UserId, KeyRow>)

  /** A stored key implies a list entry: no access without evidence of it. */
  predicate Evident(t: Tables) {
    t.keys.Keys <= t.admins
  }

  datatype InsertAnswer = Inserted | UniqueViolation | InsertFailed

  datatype GrantOutcome =
    | Granted
    | ListNotWritten
    | GrantIncomplete(keyAlreadyStored: bool)
    | GrantCutOff

  datatype RevokeOutcome =
    | Revoked
    | KeyDeleteFailed
    | KeyStillPresent
    | RevocationIncomplete(keyRemoved: bool)
    | RevokeCutOff

  datatype ClearOutcome = Cleared | NotCleared | ClearCutOff

  /**
   * What one grant attempt may do, wherever it stops and whatever is lost. A key
   * that is already stored is never replaced.
   */
  ghost predicate GrantMay(t: Tables, t': Tables, user: UserId, row: KeyRow, outcome: GrantOutcome) {
    && (t'.admins == t.admins || t'.admins == t.admins + {user})
    && (t'.keys == t.keys || (user in t'.admins && user !in t.keys && t'.keys == t.keys[user := row]))
    && (outcome.Granted? ==> user in t'.admins && user !in t.keys && t'.keys == t.keys[user := row])
    && (outcome.ListNotWritten? ==> t'.keys == t.keys)
    && (outcome.GrantIncomplete? ==> user in t'.admins)
    && (outcome == GrantIncomplete(true) ==> user in t.keys && t'.keys == t.keys)
  }

  /** What one revoke attempt may do: the list entry goes only after the key is gone. */
  ghost predicate RevokeMay(t: Tables, t': Tables, user: UserId, outcome: RevokeOutcome) {
    && (t'.keys == t.keys || t'.keys == t.keys - {user})
    && (t'.admins == t.admins || (t'.admins == t.admins - {user} && user !in t'.keys))
    && (outcome.Revoked? ==> user in t.keys && user !in t'.keys && user in t.admins && user !in t'.admins)
    && (outcome.KeyStillPresent? ==> t' == t && user in t.keys)
    && (outcome == RevocationIncomplete(true) ==> user in t.keys && user !in t'.keys)
    && (outcome == RevocationIncomplete(false) ==> t' == t)
  }

  ghost predicate ClearMay(t: Tables, t': Tables, user: UserId, outcome: ClearOutcome) {
    && t'.keys == t.keys
    && (t'.admins == t.admins || t'.admins == t.admins - {user})
    && (outcome.Cleared? ==> user in t.admins && user !in t'.admins)
  }

  class GrantStore {
    var tables: Tables

    /** How many requests did not arrive or went unanswered. */
    ghost var lost: nat

    /** How many statements the policy refused without an error. */
    ghost var refused: nat

    /** How many times the page was closed in the middle. */
    ghost var closings: nat

    /** How often something went wrong. */
    ghost function Faults(): nat
      reads this
    {
      lost + refused + closings
    }

    constructor (tables: Tables)
      ensures this.tables == tables && Faults() == 0
    {
      this.tables := tables;
      lost, refused, closings := 0, 0, 0;
    }

    /** Whether a request reaches the database, and whether its answer comes back. */
    method Network() returns (arrives: bool, answered: bool)
      modifies this`lost
      ensures lost == old(lost) + if arrives && answered then 0 else 1
    {
      arrives, answered := *, *;
      if !arrives || !answered {
        lost := lost + 1;
      }
    }

    /** Whether row-level security lets this statement see the row. */
    method Permission() returns (permitted: bool)
      modifies this`refused
      ensures refused == old(refused) + if permitted then 0 else 1
    {
      permitted := *;
      if !permitted {
        refused := refused + 1;
      }
    }

    /** Whether the page is closed at this point. */
    method PageClosed() returns (closed: bool)
      modifies this`closings
      ensures closings == old(closings) + if closed then 1 else 0
    {
      closed := *;
      if closed {
        closings := closings + 1;
      }
    }

    /** A recovery removes every stored key of the old workspace key; the list entries stay. */
    method DeleteKeysOfWorkspace() returns (ok: bool)
      modifies this`tables, this`lost, this`refused
      ensures tables.admins == old(tables).admins
      ensures tables.keys == old(tables).keys || tables.keys == map[]
      ensures Evident(old(tables)) ==> Evident(tables)
      ensures lost >= old(lost) && refused >= old(refused)
      ensures ok <==> lost == old(lost)
      ensures ok && refused == old(refused) ==> tables.keys == map[]
    {
      var arrives, answered := Network();
      var permitted := Permission();
      if arrives && permitted {
        tables := tables.(keys := map[]);
      }
      ok := arrives && answered;
    }

    method InsertAdmin(user: UserId) returns (answer: InsertAnswer)
      modifies this`tables, this`lost
      ensures tables == old(tables) || tables == old(tables).(admins := old(tables).admins + {user})
      ensures answer.Inserted? ==> user in tables.admins
      ensures answer.UniqueViolation? ==> tables == old(tables) && user in tables.admins
      ensures lost >= old(lost)
      ensures answer.InsertFailed? <==> lost > old(lost)
    {
      var arrives, answered := Network();
      answer := InsertFailed;
      if arrives {
        if user in tables.admins {
          answer := UniqueViolation;
        } else {
          tables := tables.(admins := tables.admins + {user});
          answer := Inserted;
        }
      }
      if !answered {
        answer := InsertFailed;
      }
    }

    method InsertKey(user: UserId, row: KeyRow) returns (answer: InsertAnswer)
      modifies this`tables, this`lost
      ensures tables == old(tables) ||
              (user !in old(tables).keys && tables == old(tables).(keys := old(tables).keys[user := row]))
      ensures answer.Inserted? ==> user !in old(tables).keys && tables.keys == old(tables).keys[user := row]
      ensures answer.UniqueViolation? ==> tables == old(tables) && user in tables.keys
      ensures lost >= old(lost)
      ensures answer.InsertFailed? <==> lost > old(lost)
    {
      var arrives, answered := Network();
      answer := InsertFailed;
      if arrives {
        if user in tables.keys {
          answer := UniqueViolation;
        } else {
          tables := tables.(keys := tables.keys[user := row]);
          answer := Inserted;
        }
      }
      if !answered {
        answer := InsertFailed;
      }
    }

    /** None is an error; Some(n) is n removed rows, 0 also when the policy refused. */
    method DeleteKey(user: UserId) returns (removed: Option<nat>)
      modifies this`tables, this`lost, this`refused
      ensures tables == old(tables) || tables == old(tables).(keys := old(tables).keys - {user})
      ensures removed == Some(0) ==> tables == old(tables)
      ensures removed.Some? && removed.value > 0 ==> tables == old(tables).(keys := old(tables).keys - {user})
      ensures lost >= old(lost) && refused >= old(refused)
      ensures removed.None? <==> lost > old(lost)
      ensures removed.Some? ==> removed.value == if user in old(tables).keys && refused == old(refused) then 1 else 0
    {
      var arrives, answered := Network();
      removed := None;
      if arrives {
        var permitted := Permission();
        if permitted && user in tables.keys {
          tables := tables.(keys := tables.keys - {user});
          removed := Some(1);
        } else {
          removed := Some(0);
        }
      }
      if !answered {
        removed := None;
      }
    }

    method DeleteAdmin(user: UserId) returns (removed: Option<nat>)
      modifies this`tables, this`lost, this`refused
      ensures tables == old(tables) || tables == old(tables).(admins := old(tables).admins - {user})
      ensures removed == Some(0) ==> tables == old(tables)
      ensures removed.Some? && removed.value > 0 ==> tables == old(tables).(admins := old(tables).admins - {user})
      ensures lost >= old(lost) && refused >= old(refused)
      ensures removed.None? <==> lost > old(lost)
      ensures removed.Some? ==> removed.value == if user in old(tables).admins && refused == old(refused) then 1 else 0
    {
      var arrives, answered := Network();
      removed := None;
      if arrives {
        var permitted := Permission();
        if permitted && user in tables.admins {
          tables := tables.(admins := tables.admins - {user});
          removed := Some(1);
        } else {
          removed := Some(0);
        }
      }
      if !answered {
        removed := None;
      }
    }

    /** A visible row is really there; an invisible one proves nothing. */
    method SelectKey(user: UserId) returns (found: Option<bool>)
      modifies this`lost, this`refused
      ensures lost >= old(lost) && refused >= old(refused)
      ensures found.None? <==> lost > old(lost)
      ensures found.Some? ==> (found.value <==> user in tables.keys && refused == old(refused))
    {
      var arrives, answered := Network();
      var visible := Permission();
      found := if arrives && answered then Some(visible && user in tables.keys) else None;
    }

    /**
     * persistCoAdminGrant: the record of access first, the access second. It is
     * cut off exactly when the page closes; otherwise it is incomplete exactly
     * when an answer was lost or a key was there already.
     */
    method PersistCoAdminGrant(user: UserId, row: KeyRow) returns (outcome: GrantOutcome)
      modifies this`tables, this`lost, this`closings
      ensures GrantMay(old(tables), tables, user, row, outcome)
      ensures lost >= old(lost) && closings >= old(closings)
      ensures outcome.GrantCutOff? <==> closings > old(closings)
      ensures closings == old(closings) && lost == old(lost) ==>
                outcome == if user in old(tables).keys then GrantIncomplete(true) else Granted
      ensures closings == old(closings) && lost > old(lost) ==> outcome in {ListNotWritten, GrantIncomplete(false)}
    {
      var listed := InsertAdmin(user);
      var closed := PageClosed();
      if closed {
        return GrantCutOff;
      }
      if listed.InsertFailed? {
        return ListNotWritten;
      }
      var stored := InsertKey(user, row);
      closed := PageClosed();
      if closed {
        return GrantCutOff;
      }
      match stored {
        case Inserted => outcome := Granted;
        case UniqueViolation => outcome := GrantIncomplete(true);
        case InsertFailed => outcome := GrantIncomplete(false);
      }
    }

    /**
     * revokeCoAdmin: the access first, the record of it second. When only one
     * statement is refused, silently, the outcome still says whether the key is there.
     */
    method RevokeCoAdmin(user: UserId) returns (outcome: RevokeOutcome)
      modifies this
      ensures RevokeMay(old(tables), tables, user, outcome)
      ensures lost >= old(lost) && refused >= old(refused) && closings >= old(closings)
      ensures outcome.RevokeCutOff? <==> closings > old(closings)
      ensures Faults() == old(Faults()) ==>
                outcome == if user !in old(tables).keys then RevocationIncomplete(false)
                           else if user !in old(tables).admins then RevocationIncomplete(true)
                           else Revoked
      ensures Faults() == old(Faults()) + 1 && refused == old(refused) + 1 ==>
                outcome == if user in tables.keys then KeyStillPresent
                           else RevocationIncomplete(user in old(tables).keys)
      ensures outcome.KeyDeleteFailed? ==> lost > old(lost)
      ensures closings == old(closings) && lost > old(lost) ==>
                outcome.KeyDeleteFailed? || outcome.RevocationIncomplete?
    {
      var removedKeys := DeleteKey(user);
      var closed := PageClosed();
      if closed {
        return RevokeCutOff;
      }
      if removedKeys.None? {
        return KeyDeleteFailed;
      }
      if removedKeys.value == 0 {
        var stillPresent := SelectKey(user);
        closed := PageClosed();
        if closed {
          return RevokeCutOff;
        }
        return if stillPresent == Some(true) then KeyStillPresent else RevocationIncomplete(false);
      }
      var removedAdmins := DeleteAdmin(user);
      closed := PageClosed();
      if closed {
        return RevokeCutOff;
      }
      outcome := if removedAdmins.None? || removedAdmins.value == 0 then RevocationIncomplete(true) else Revoked;
    }

    /** clearCoAdminListEntry: the record only. */
    method ClearCoAdminListEntry(user: UserId) returns (outcome: ClearOutcome)
      modifies this
      ensures ClearMay(old(tables), tables, user, outcome)
      ensures lost >= old(lost) && refused >= old(refused) && closings >= old(closings)
      ensures outcome.ClearCutOff? <==> closings > old(closings)
      ensures outcome.Cleared? <==> user in old(tables).admins && Faults() == old(Faults())
    {
      var removed := DeleteAdmin(user);
      var closed := PageClosed();
      if closed {
        return ClearCutOff;
      }
      outcome := if removed.None? || removed.value == 0 then NotCleared else Cleared;
    }
  }

  // ------------------------------------------------------ sequences of attempts

  datatype Attempt =
    | GrantAttempt(user: UserId, row: KeyRow, granted: GrantOutcome)
    | RevokeAttempt(user: UserId, revoked: RevokeOutcome)

  ghost predicate AttemptMay(t: Tables, t': Tables, a: Attempt) {
    match a
    case GrantAttempt(user, row, outcome) => GrantMay(t, t', user, row, outcome)
    case RevokeAttempt(user, outcome) => RevokeMay(t, t', user, outcome)
  }

  /** states[i] becomes states[i + 1] by attempts[i], one attempt after another. */
  ghost predicate IsRun(states: seq<Tables>, attempts: seq<Attempt>) {
    && |states| == |attempts| + 1
    && forall i | 0 <= i < |attempts| :: AttemptMay(states[i], states[i + 1], attempts[i])
  }

  lemma AttemptKeepsEvident(t: Tables, t': Tables, a: Attempt)
    requires Evident(t) && AttemptMay(t, t', a)
    ensures Evident(t')
  {
  }

  /** In every state of every run a stored key has its list entry. */
  lemma {:induction false} EvidentThroughout(states: seq<Tables>, attempts: seq<Attempt>, i: nat)
    requires IsRun(states, attempts) && Evident(states[0]) && i < |states|
    ensures Evident(states[i])
  {
    if i > 0 {
      EvidentThroughout(states, attempts, i - 1);
      AttemptKeepsEvident(states[i - 1], states[i], attempts[i - 1]);
    }
  }

  /** A grant that failed or was cut off leaves every other recipient, and any stored key, alone. */
  lemma GrantTouchesOneRecipient(t: Tables, t': Tables, user: UserId, row: KeyRow, outcome: GrantOutcome, other: UserId)
    requires GrantMay(t, t', user, row, outcome)
    ensures other != user ==> (other in t'.admins <==> other in t.admins) && (other in t'.keys <==> other in t.keys)
    ensures other in t.keys ==> other in t'.keys && t'.keys[other] == t.keys[other]
  {
  }

  /** What an owner may conclude from each way a revoke ends, whatever came before. */
  lemma RevokeTellsTheTruth(states: seq<Tables>, attempts: seq<Attempt>, i: nat)
    requires IsRun(states, attempts) && Evident(states[0])
    requires i < |attempts| && attempts[i].RevokeAttempt?
    ensures var user, outcome, after := attempts[i].user, attempts[i].revoked, states[i + 1];
            && (outcome.Revoked? ==> user !in after.keys && user !in after.admins)
            && (outcome == RevocationIncomplete(true) ==> user !in after.keys)
            && (user in after.keys ==> user in after.admins && user in states[i].admins)
  {
    EvidentThroughout(states, attempts, i);
    EvidentThroughout(states, attempts, i + 1);
    assert AttemptMay(states[i], states[i + 1], attempts[i]);
  }

  /** Clearing a list entry on its own keeps the rule exactly when no key is stored for it. */
  lemma ClearKeepsEvidentIff(t: Tables, t': Tables, user: UserId)
    requires Evident(t) && ClearMay(t, t', user, Cleared)
    ensures Evident(t') <==> user !in t.keys
  {
  }

  /** A grant between the two deletes of a revoke in another tab leaves a key nobody lists. */
  lemma InterleavingBreaksIt(user: UserId, oldRow: KeyRow, newRow: KeyRow)
    ensures var t0 := Tables({user}, map[user := oldRow]);
            var keyDeleted := t0.(keys := t0.keys - {user});
            var granted := keyDeleted.(keys := keyDeleted.keys[user := newRow]);
            var listDeleted := granted.(admins := granted.admins - {user});
            && RevokeMay(t0, keyDeleted, user, RevokeCutOff)
            && GrantMay(keyDeleted, granted, user, newRow, Granted)
            && !Evident(listDeleted)
  {
  }
}
