/**
 * The user_vault_meta row and everything that writes it: recoveries, password
 * changes and the PQC and workspace-key columns. A request may be built at one
 * moment, sent later, and reach the database late, twice or never.
 */
module VaultMeta {
  import opened Wrappers
  import opened Text
  import opened Symbolic

  datatype MetaRow = MetaRow(
    salt: Utf16,
    encMek: Column,
    recovery: Column,
    verifier: Column,
    keyVersion: nat,
    kemPublic: Option<Utf16>,
    kemSecret: Option<Column>,
    sigPublic: Option<Utf16>,
    sigSecret: Option<Column>,
    workspaceKey: Option<Utf16>)

  /**
   * Rotate is the last write of a recovery, guarded on recovery_ciphertext.
   * Rewrap is the write of a password change, guarded on enc_mek_ciphertext.
   */
  datatype Request =
    | Rotate(prior: Column, encMek: Column, recovery: Column, verifier: Column, keyVersion: nat,
             kemSecret: Option<Column>, sigSecret: Option<Column>)
    | Rewrap(prior: Column, encMek: Column, recovery: Column)

  predicate Matches(row: MetaRow, r: Request) {
    match r
    case Rotate(prior, _, _, _, _, _, _) => row.recovery == prior
    case Rewrap(prior, _, _) => row.encMek == prior
  }

  /** A secret is written only when carried; unless both are, both public keys go. */
  function Apply(row: MetaRow, r: Request): MetaRow {
    match r
    case Rotate(_, encMek, recovery, verifier, keyVersion, kemSecret, sigSecret) =>
      var wrapped := row.(
        encMek := encMek, recovery := recovery, verifier := verifier, keyVersion := keyVersion,
        kemSecret := if kemSecret.Some? then kemSecret else row.kemSecret,
        sigSecret := if sigSecret.Some? then sigSecret else row.sigSecret);
      if kemSecret.None? || sigSecret.None? then wrapped.(kemPublic := None, sigPublic := None) else wrapped
    case Rewrap(_, encMek, recovery) => row.(encMek := encMek, recovery := recovery)
  }

  // ---------------------------------------------------------------- one MEK

  const VERIFIER_PLAINTEXT: Bytes := AsciiBytes("orangerails-vault-verifier-v1")

  function VerifierKey(mek: Bytes, salt: Utf16): Key { Subkey(mek, Verifier, salt) }

  function PqcWrapKey(mek: Bytes, salt: Utf16): Key { Subkey(mek, PqcSecretWrap, salt) }

  /** verifyVaultPassword, for the verifier subkey of this MEK */
  predicate Verifies(verifier: Column, mek: Bytes, salt: Utf16) {
    Decrypt(verifier, VerifierKey(mek, salt)) == Success(VERIFIER_PLAINTEXT)
  }

  predicate IsPasswordEnvelope(c: Column, mek: Bytes, salt: Utf16) {
    c.Sealed? && c.key.PasswordKek? && c.key.salt == salt && c.aad == [] && c.plaintext == mek
  }

  predicate IsRecoveryEnvelope(c: Column, mek: Bytes) {
    c.Sealed? && c.key.RecoveryKek? && c.aad == [] && c.plaintext == mek
  }

  /** Both envelopes and the verifier belong to one MEK. */
  predicate OneMek(row: MetaRow) {
    && row.encMek.Sealed?
    && IsPasswordEnvelope(row.encMek, row.encMek.plaintext, row.salt)
    && IsRecoveryEnvelope(row.recovery, row.encMek.plaintext)
    && Verifies(row.verifier, row.encMek.plaintext, row.salt)
  }

  function MekOf(row: MetaRow): Bytes
    requires OneMek(row)
  {
    row.encMek.plaintext
  }

  // -------------------------------------------------------------- the world

  /** past holds every row there ever was, the current one last. */
  datatype World = World(
    past: seq<MetaRow>,
    built: set<Request>,
    sent: set<Request>,
    log: seq<Request>,
    retired: set<Column>)

  function Current(w: World): MetaRow
    requires w.past != []
  {
    w.past[|w.past| - 1]
  }

  function Envelopes(row: MetaRow): set<Column> { {row.encMek, row.recovery} }

  function NewEnvelopes(r: Request): set<Column> { {r.encMek, r.recovery} }

  /** Sealed under fresh nonces, so no envelope seen before. */
  predicate FreshEnvelopes(w: World, r: Request)
    requires w.past != []
  {
    && NewEnvelopes(r) !! w.retired
    && NewEnvelopes(r) !! Envelopes(Current(w))
    && (forall q | q in w.built :: NewEnvelopes(r) !! NewEnvelopes(q))
    && r.prior !in NewEnvelopes(r)
  }

  /** Every envelope that is, was or may yet be stored. */
  function KnownEnvelopes(w: World): set<Column>
    requires w.past != []
  {
    w.retired + Envelopes(Current(w)) + set r, c | r in w.built && c in NewEnvelopes(r) :: c
  }

  /** No known envelope was sealed under this nonce or a later one. */
  predicate FreshNonce(envelopes: set<Column>, nonce: nat) {
    forall c | c in envelopes && c.Sealed? :: c.nonce < nonce
  }

  lemma {:induction false} FreshNonceExists(envelopes: set<Column>) returns (nonce: nat)
    ensures FreshNonce(envelopes, nonce)
  {
    if envelopes == {} {
      nonce := 0;
    } else {
      var c :| c in envelopes;
      var rest := envelopes - {c};
      var n := FreshNonceExists(rest);
      nonce := if c.Sealed? && c.nonce >= n then c.nonce + 1 else n;
      forall d | d in envelopes && d.Sealed?
        ensures d.nonce < nonce
      {
        assert d == c || d in rest;
      }
    }
  }

  /** What recoverWithCode and changeVaultPassword build, from the guard they read. */
  predicate WellBuilt(r: Request, salt: Utf16) {
    && r.prior.Sealed? && r.encMek.Sealed?
    && IsPasswordEnvelope(r.encMek, r.encMek.plaintext, salt)
    && IsRecoveryEnvelope(r.recovery, r.encMek.plaintext)
    && match r
       case Rotate(_, _, _, verifier, _, _, _) => Verifies(verifier, r.encMek.plaintext, salt)
       case Rewrap(prior, _, _) => r.encMek.plaintext == prior.plaintext
  }

  /** A carried secret is the one in the row that was read, moved to the new MEK. */
  predicate CarriedFrom(read: Option<Column>, carried: Option<Column>, oldMek: Bytes, newMek: Bytes, salt: Utf16) {
    carried.Some? ==>
      read.Some? && Resealed(read.value, carried.value, PqcWrapKey(oldMek, salt), PqcWrapKey(newMek, salt))
  }

  /** The request was made from this row. */
  predicate BuiltFrom(row: MetaRow, r: Request) {
    && WellBuilt(r, row.salt)
    && Matches(row, r)
    && (r.Rotate? ==>
          && CarriedFrom(row.kemSecret, r.kemSecret, r.prior.plaintext, r.encMek.plaintext, row.salt)
          && CarriedFrom(row.sigSecret, r.sigSecret, r.prior.plaintext, r.encMek.plaintext, row.salt))
  }

  predicate MayBuild(w: World, r: Request)
    requires w.past != []
  {
    FreshEnvelopes(w, r) && exists i | 0 <= i < |w.past| :: BuiltFrom(w.past[i], r)
  }

  /**
   * PublishPqc is ensurePqcKeypairs with its read and its write taken as one
   * step; its secrets may be wrapped under any MEK some session still holds.
   */
  datatype Event =
    | Build(request: Request)
    | Send(request: Request)
    | Deliver(request: Request)
    | PublishPqc(kemPublic: Utf16, kemSecret: Column, sigPublic: Utf16, sigSecret: Column)
    | AllocateWorkspaceKey(id: Utf16)

  function Delivered(w: World, r: Request): World
    requires w.past != []
  {
    World(w.past + [Apply(Current(w), r)], w.built, w.sent, w.log + [r], w.retired + Envelopes(Current(w)))
  }

  /** A nullable text that JavaScript finds truthy. */
  predicate HasText(text: Option<Utf16>) {
    text.Some? && text.value != []
  }

  function WithRow(w: World, row: MetaRow): World {
    w.(past := w.past + [row])
  }

  function Published(row: MetaRow, e: Event): MetaRow
    requires e.PublishPqc?
  {
    row.(kemPublic := Some(e.kemPublic), kemSecret := Some(e.kemSecret),
         sigPublic := Some(e.sigPublic), sigSecret := Some(e.sigSecret))
  }

  /** One step; an event that is not enabled changes nothing. */
  function Next(w: World, e: Event): (w': World)
    requires w.past != []
    ensures w'.past != []
  {
    match e
    case Build(r) => if MayBuild(w, r) then w.(built := w.built + {r}) else w
    case Send(r) => if r in w.built then w.(sent := w.sent + {r}) else w
    case Deliver(r) => if r in w.sent && Matches(Current(w), r) then Delivered(w, r) else w
    case PublishPqc(_, _, _, _) =>
      if !HasText(Current(w).kemPublic) then WithRow(w, Published(Current(w), e)) else w
    case AllocateWorkspaceKey(id) =>
      if Current(w).workspaceKey.None? then WithRow(w, Current(w).(workspaceKey := Some(id))) else w
  }

  function Run(w: World, events: seq<Event>): (w': World)
    requires w.past != []
    ensures w'.past != []
  {
    if events == [] then w else Next(Run(w, events[..|events| - 1]), events[|events| - 1])
  }

  /** A vault as setupVault leaves it, before any request exists. */
  predicate Initial(w: World) {
    |w.past| == 1 && OneMek(w.past[0]) && w.built == {} && w.sent == {} && w.log == [] && w.retired == {}
  }

  // -------------------------------------------------------------- invariants

  /** Rows: one MEK each, one salt for all. */
  ghost predicate RowsSound(w: World) {
    && w.past != []
    && forall i | 0 <= i < |w.past| :: OneMek(w.past[i]) && w.past[i].salt == Current(w).salt
  }

  /** No request's envelopes are stored before it takes effect, or shared with another's. */
  ghost predicate RequestsSound(w: World)
    requires w.past != []
  {
    && w.sent <= w.built
    && (forall r | r in w.built :: WellBuilt(r, Current(w).salt) && r.prior !in NewEnvelopes(r))
    && (forall r, q | r in w.built && q in w.built && r != q :: NewEnvelopes(r) !! NewEnvelopes(q))
    && (forall r | r in w.built && r !in w.log ::
          NewEnvelopes(r) !! w.retired && NewEnvelopes(r) !! Envelopes(Current(w)))
  }

  /** What was replaced stays replaced, and a guard that was used up is among it. */
  ghost predicate RetiredSound(w: World)
    requires w.past != []
  {
    && Envelopes(Current(w)) !! w.retired
    && (forall i | 0 <= i < |w.past| :: Envelopes(w.past[i]) <= w.retired + Envelopes(Current(w)))
    && (forall r | r in w.log :: r in w.sent && r.prior in w.retired)
  }

  ghost predicate NoDuplicates(log: seq<Request>) {
    forall i, j | 0 <= i < j < |log| :: log[i] != log[j]
  }

  /** An envelope is stored over one unbroken stretch of time. */
  ghost predicate Contiguous(past: seq<MetaRow>) {
    forall i, m, j | 0 <= i <= m <= j < |past| ::
      && (past[i].recovery == past[j].recovery ==> past[m].recovery == past[i].recovery)
      && (past[i].encMek == past[j].encMek ==> past[m].encMek == past[i].encMek)
  }

  /** The moment at which r took effect. */
  ghost predicate TookEffectAt(past: seq<MetaRow>, r: Request, j: nat) {
    0 < j < |past| && Matches(past[j - 1], r) && past[j] == Apply(past[j - 1], r)
  }

  ghost predicate LogSound(w: World) {
    && NoDuplicates(w.log)
    && forall r | r in w.log :: exists j: nat :: TookEffectAt(w.past, r, j)
  }

  ghost predicate Inv(w: World) {
    RowsSound(w) && RequestsSound(w) && RetiredSound(w) && Contiguous(w.past) && LogSound(w)
  }

  /** A late or repeated request that matches has not taken effect before. */
  lemma MatchMeansUnused(w: World, r: Request)
    requires Inv(w) && r in w.sent && Matches(Current(w), r)
    ensures r !in w.log
  {
  }

  /** While its guard is stored a request has not taken effect. */
  lemma GuardMeansUnused(w: World, r: Request)
    requires Inv(w) && Matches(Current(w), r)
    ensures r !in w.log
  {
    assert r.prior in Envelopes(Current(w));
  }

  /** A request that was never sent has not taken effect. */
  lemma UnsentMeansUnused(w: World, r: Request)
    requires Inv(w) && r !in w.sent
    ensures r !in w.log
  {
  }

  lemma ApplyKeepsOneMek(row: MetaRow, r: Request)
    requires OneMek(row) && WellBuilt(r, row.salt) && Matches(row, r)
    ensures OneMek(Apply(row, r)) && Apply(row, r).salt == row.salt
    ensures Envelopes(Apply(row, r)) == NewEnvelopes(r)
  {
  }

  lemma DeliveredRows(w: World, r: Request)
    requires Inv(w) && r in w.sent && Matches(Current(w), r)
    ensures RowsSound(Delivered(w, r))
  {
  }

  lemma DeliveredRequests(w: World, r: Request)
    requires Inv(w) && r in w.sent && Matches(Current(w), r)
    ensures RequestsSound(Delivered(w, r))
  {
  }

  lemma DeliveredRetired(w: World, r: Request)
    requires Inv(w) && r in w.sent && Matches(Current(w), r)
    ensures RetiredSound(Delivered(w, r))
  {
  }

  lemma DeliveredContiguous(w: World, r: Request)
    requires Inv(w) && r in w.sent && Matches(Current(w), r)
    ensures Contiguous(Delivered(w, r).past)
  {
    MatchMeansUnused(w, r);
    ApplyKeepsOneMek(Current(w), r);
    var past := Delivered(w, r).past;
    var n := |w.past|;
    forall i | 0 <= i < n
      ensures past[i].recovery != past[n].recovery && past[i].encMek != past[n].encMek
    {
      assert Envelopes(w.past[i]) <= w.retired + Envelopes(Current(w));
      assert past[i].recovery in Envelopes(w.past[i]) && past[i].encMek in Envelopes(w.past[i]);
      assert past[n].recovery in NewEnvelopes(r) && past[n].encMek in NewEnvelopes(r);
    }
  }

  lemma TookEffectPrefix(past: seq<MetaRow>, row: MetaRow, r: Request, j: nat)
    requires TookEffectAt(past, r, j)
    ensures TookEffectAt(past + [row], r, j)
  {
  }

  lemma LongerPast(past: seq<MetaRow>, row: MetaRow, r: Request)
    requires exists j: nat :: TookEffectAt(past, r, j)
    ensures exists j: nat :: TookEffectAt(past + [row], r, j)
  {
    var j: nat :| TookEffectAt(past, r, j);
    TookEffectPrefix(past, row, r, j);
  }

  lemma DeliveredLog(w: World, r: Request)
    requires Inv(w) && r in w.sent && Matches(Current(w), r)
    ensures LogSound(Delivered(w, r))
  {
    MatchMeansUnused(w, r);
    var w' := Delivered(w, r);
    forall i, j | 0 <= i < j < |w'.log|
      ensures w'.log[i] != w'.log[j]
    {
      assert w'.log[i] in w.log;
    }
    forall q | q in w'.log
      ensures exists j: nat :: TookEffectAt(w'.past, q, j)
    {
      if q == r {
        assert TookEffectAt(w'.past, r, |w.past|);
      } else {
        LongerPast(w.past, Apply(Current(w), r), q);
      }
    }
  }

  lemma DeliveredKeepsInv(w: World, r: Request)
    requires Inv(w) && r in w.sent && Matches(Current(w), r)
    ensures Inv(Delivered(w, r))
  {
    DeliveredRows(w, r);
    DeliveredRequests(w, r);
    DeliveredRetired(w, r);
    DeliveredContiguous(w, r);
    DeliveredLog(w, r);
  }

  lemma BuildRequests(w: World, r: Request)
    requires Inv(w) && MayBuild(w, r)
    ensures RequestsSound(w.(built := w.built + {r}))
  {
    var w' := w.(built := w.built + {r});
    assert WellBuilt(r, Current(w).salt) by {
      var i :| 0 <= i < |w.past| && BuiltFrom(w.past[i], r);
    }
    forall p, q | p in w'.built && q in w'.built && p != q
      ensures NewEnvelopes(p) !! NewEnvelopes(q)
    {
    }
  }

  lemma BuildKeepsInv(w: World, r: Request)
    requires Inv(w) && MayBuild(w, r)
    ensures Inv(w.(built := w.built + {r}))
  {
    BuildRequests(w, r);
  }

  /** A write to other columns only. */
  lemma WithRowKeepsInv(w: World, row: MetaRow)
    requires Inv(w)
    requires OneMek(row) && row.salt == Current(w).salt
    requires row.encMek == Current(w).encMek && row.recovery == Current(w).recovery
    ensures Inv(WithRow(w, row))
  {
    var w' := WithRow(w, row);
    var n := |w.past|;
    forall i, m, j | 0 <= i <= m <= j < |w'.past|
      ensures w'.past[i].recovery == w'.past[j].recovery ==> w'.past[m].recovery == w'.past[i].recovery
      ensures w'.past[i].encMek == w'.past[j].encMek ==> w'.past[m].encMek == w'.past[i].encMek
    {
      var m', j' := if m == n then n - 1 else m, if j == n then n - 1 else j;
      if i < n {
        assert w.past[i].recovery == w.past[j'].recovery ==> w.past[m'].recovery == w.past[i].recovery;
        assert w.past[i].encMek == w.past[j'].encMek ==> w.past[m'].encMek == w.past[i].encMek;
      }
    }
    forall q | q in w.log
      ensures exists j: nat :: TookEffectAt(w'.past, q, j)
    {
      LongerPast(w.past, row, q);
    }
  }

  lemma NextKeepsInv(w: World, e: Event)
    requires Inv(w)
    ensures Inv(Next(w, e))
  {
    match e
    case Build(r) =>
      if MayBuild(w, r) {
        BuildKeepsInv(w, r);
      }
    case Send(r) =>
    case Deliver(r) =>
      if r in w.sent && Matches(Current(w), r) {
        DeliveredKeepsInv(w, r);
      }
    case PublishPqc(_, _, _, _) =>
      if !HasText(Current(w).kemPublic) {
        WithRowKeepsInv(w, Published(Current(w), e));
      }
    case AllocateWorkspaceKey(id) =>
      if Current(w).workspaceKey.None? {
        WithRowKeepsInv(w, Current(w).(workspaceKey := Some(id)));
      }
  }

  lemma InitialInv(w: World)
    requires Initial(w)
    ensures Inv(w)
  {
    assert Current(w) == w.past[0];
    assert Contiguous([w.past[0]]);
    assert w.past == [w.past[0]];
  }

  lemma {:induction false} RunKeepsInv(w: World, events: seq<Event>)
    requires Initial(w)
    ensures Inv(Run(w, events))
  {
    if events == [] {
      InitialInv(w);
    } else {
      RunKeepsInv(w, events[..|events| - 1]);
      NextKeepsInv(Run(w, events[..|events| - 1]), events[|events| - 1]);
    }
  }

  // ----------------------------------------------------------------- lineage

  /** Every request was made from a row that was stored. */
  ghost predicate Descends(w: World) {
    forall r | r in w.built :: exists i: nat | i < |w.past| :: BuiltFrom(w.past[i], r)
  }

  /**
   * A write replaces both envelopes or neither, and the verifier and key version
   * only with them; the salt stays, and a workspace key once set.
   */
  predicate StepSound(before: MetaRow, after: MetaRow) {
    && (after.encMek == before.encMek <==> after.recovery == before.recovery)
    && (after.recovery == before.recovery ==>
          after.verifier == before.verifier && after.keyVersion == before.keyVersion)
    && after.salt == before.salt
    && (before.workspaceKey.Some? ==> after.workspaceKey == before.workspaceKey)
  }

  ghost predicate MovesTogether(past: seq<MetaRow>) {
    forall k | 0 < k < |past| :: StepSound(past[k - 1], past[k])
  }

  ghost predicate Lineage(w: World) {
    Descends(w) && MovesTogether(w.past)
  }

  lemma LongerDescent(past: seq<MetaRow>, row: MetaRow, r: Request)
    requires exists i: nat | i < |past| :: BuiltFrom(past[i], r)
    ensures exists i: nat | i < |past| + 1 :: BuiltFrom((past + [row])[i], r)
  {
    var i: nat :| i < |past| && BuiltFrom(past[i], r);
    assert BuiltFrom((past + [row])[i], r);
  }

  /** A row stored after the current one. */
  lemma NewRowKeepsLineage(w: World, w': World, row: MetaRow)
    requires w.past != [] && Lineage(w) && w'.past == w.past + [row] && w'.built == w.built
    requires StepSound(Current(w), row)
    ensures Lineage(w')
  {
    hide BuiltFrom;
    forall r | r in w'.built
      ensures exists i: nat | i < |w'.past| :: BuiltFrom(w'.past[i], r)
    {
      LongerDescent(w.past, row, r);
    }
  }

  lemma DeliveredKeepsLineage(w: World, r: Request)
    requires Inv(w) && Lineage(w) && r in w.sent && Matches(Current(w), r)
    ensures Lineage(Delivered(w, r))
  {
    MatchMeansUnused(w, r);
    var row := Apply(Current(w), r);
    assert row.encMek in NewEnvelopes(r) && row.recovery in NewEnvelopes(r);
    NewRowKeepsLineage(w, Delivered(w, r), row);
  }

  lemma NextKeepsLineage(w: World, e: Event)
    requires Inv(w) && Lineage(w)
    ensures Lineage(Next(w, e))
  {
    match e
    case Build(r) =>
    case Send(r) =>
    case Deliver(r) =>
      if r in w.sent && Matches(Current(w), r) {
        DeliveredKeepsLineage(w, r);
      }
    case PublishPqc(_, _, _, _) =>
      if !HasText(Current(w).kemPublic) {
        NewRowKeepsLineage(w, Next(w, e), Published(Current(w), e));
      }
    case AllocateWorkspaceKey(id) =>
      if Current(w).workspaceKey.None? {
        NewRowKeepsLineage(w, Next(w, e), Current(w).(workspaceKey := Some(id)));
      }
  }

  lemma {:induction false} RunKeepsLineage(w: World, events: seq<Event>)
    requires Initial(w)
    ensures Lineage(Run(w, events))
  {
    if events != [] {
      var front := events[..|events| - 1];
      RunKeepsInv(w, front);
      RunKeepsLineage(w, front);
      NextKeepsLineage(Run(w, front), events[|events| - 1]);
    }
  }

  /** While a recovery envelope is stored, so are the password envelope, verifier and key version stored with it. */
  lemma {:induction false} EnvelopesStay(w: World, i: nat)
    requires Inv(w) && Lineage(w) && i < |w.past|
    ensures w.past[i].recovery == Current(w).recovery ==>
              && w.past[i].encMek == Current(w).encMek
              && w.past[i].verifier == Current(w).verifier && w.past[i].keyVersion == Current(w).keyVersion
    decreases |w.past| - i
  {
    if i < |w.past| - 1 {
      EnvelopesStay(w, i + 1);
      assert w.past[i].recovery == Current(w).recovery ==> w.past[i + 1].recovery == w.past[i].recovery;
      assert StepSound(w.past[i], w.past[i + 1]);
    }
  }

  lemma {:induction false} WorkspaceKeyStays(past: seq<MetaRow>, i: nat, j: nat)
    requires MovesTogether(past) && i <= j < |past|
    ensures past[i].workspaceKey.Some? ==> past[j].workspaceKey == past[i].workspaceKey
  {
    if i < j {
      WorkspaceKeyStays(past, i, j - 1);
      assert StepSound(past[j - 1], past[j]);
    }
  }

  // ------------------------------------------------------------ what follows

  /** In every interleaving, every row ever stored belongs to one MEK. */
  lemma OneMekThroughout(w: World, events: seq<Event>, i: nat)
    requires Initial(w) && i < |Run(w, events).past|
    ensures OneMek(Run(w, events).past[i])
  {
    RunKeepsInv(w, events);
  }

  /** Rows of one vault share a salt, and each has one MEK. */
  lemma RowsAlike(w: World, i: nat)
    requires Inv(w) && i < |w.past|
    ensures OneMek(w.past[i]) && w.past[i].salt == Current(w).salt
  {
  }

  /** However often a request is sent and however late it arrives, it takes effect at most once. */
  lemma AtMostOnce(w: World, events: seq<Event>, i: nat, j: nat)
    requires Initial(w) && i < j < |Run(w, events).log|
    ensures Run(w, events).log[i] != Run(w, events).log[j]
  {
    RunKeepsInv(w, events);
  }

  /** While the guard stays, so do both envelopes. */
  lemma {:induction false} GuardHoldsBoth(past: seq<MetaRow>, r: Request, read: nat, between: nat)
    requires MovesTogether(past) && read <= between < |past|
    requires forall m | read <= m <= between :: Matches(past[m], r)
    ensures past[between].encMek == past[read].encMek && past[between].recovery == past[read].recovery
  {
    if read < between {
      GuardHoldsBoth(past, r, read, between - 1);
      assert Matches(past[between], r) && Matches(past[between - 1], r);
      assert StepSound(past[between - 1], past[between]);
    }
  }

  /**
   * Between the read a guard came from and the write it let through, the row
   * held the envelopes that were read, and no other request took effect.
   */
  lemma NothingOverwritten(w: World, events: seq<Event>, r: Request, read: nat, between: nat, landed: nat)
    requires Initial(w)
    requires TookEffectAt(Run(w, events).past, r, landed)
    requires read <= between < landed && Matches(Run(w, events).past[read], r)
    ensures var t := Run(w, events);
            && Envelopes(t.past[between]) == Envelopes(t.past[read])
            && t.past[between].encMek == t.past[read].encMek
            && (read < between ==> forall q | q in t.log :: !TookEffectAt(t.past, q, between))
  {
    RunKeepsInv(w, events);
    RunKeepsLineage(w, events);
    var t := Run(w, events);
    GuardStays(t.past, r, read, landed);
    GuardHoldsBoth(t.past, r, read, between);
    if read < between {
      GuardHoldsBoth(t.past, r, read, between - 1);
      forall q | q in t.log
        ensures !TookEffectAt(t.past, q, between)
      {
        NoEffectWithoutChange(t, q, between);
      }
    }
  }

  lemma GuardStays(past: seq<MetaRow>, r: Request, read: nat, landed: nat)
    requires Contiguous(past) && TookEffectAt(past, r, landed)
    requires read < landed && Matches(past[read], r)
    ensures forall m | read <= m < landed :: Matches(past[m], r)
  {
    assert Matches(past[landed - 1], r);
  }

  /** A write that took effect changed the envelopes. */
  lemma NoEffectWithoutChange(w: World, q: Request, k: nat)
    requires Inv(w) && q in w.log && 0 < k < |w.past|
    requires w.past[k].encMek == w.past[k - 1].encMek && w.past[k].recovery == w.past[k - 1].recovery
    ensures !TookEffectAt(w.past, q, k)
  {
    assert q in w.built && q.prior !in NewEnvelopes(q);
  }

  /** A request that took effect was, at some moment, exactly what the row held. */
  lemma LandedMeansHeld(w: World, r: Request)
    requires Inv(w) && r in w.log
    ensures exists j: nat ::
              && TookEffectAt(w.past, r, j)
              && w.past[j].encMek == r.encMek && w.past[j].recovery == r.recovery
              && (r.Rotate? ==> w.past[j].verifier == r.verifier && w.past[j].keyVersion == r.keyVersion)
  {
  }

  /** A stored envelope proves that the request it came from took effect. */
  lemma StoredMeansLanded(w: World, r: Request)
    requires Inv(w) && r in w.built
    requires Current(w).recovery == r.recovery
    ensures r in w.log
  {
  }

  /** A landed rotation whose envelope is still stored has all three of its values stored. */
  lemma LandedValuesStored(w: World, r: Request)
    requires Inv(w) && Lineage(w) && r.Rotate? && r in w.log && Current(w).recovery == r.recovery
    ensures Current(w).verifier == r.verifier && Current(w).keyVersion == r.keyVersion
  {
    var j: nat :| TookEffectAt(w.past, r, j);
    EnvelopesStay(w, j);
  }

  /**
   * What a landed rotation leaves of the other columns: both public keys stay
   * when both secrets were carried and go otherwise, a secret that was not
   * carried is left in place, the salt and the workspace key stay.
   */
  predicate RotatedFrom(before: MetaRow, r: Request, after: MetaRow)
    requires r.Rotate?
  {
    && (r.kemSecret.Some? && r.sigSecret.Some? ==>
          after.kemPublic == before.kemPublic && after.sigPublic == before.sigPublic)
    && (r.kemSecret.None? || r.sigSecret.None? ==> after.kemPublic.None? && after.sigPublic.None?)
    && after.kemSecret == (if r.kemSecret.Some? then r.kemSecret else before.kemSecret)
    && after.sigSecret == (if r.sigSecret.Some? then r.sigSecret else before.sigSecret)
    && after.salt == before.salt && after.workspaceKey == before.workspaceKey
  }

  /** A landed password change touches the two envelopes and nothing else. */
  lemma LandedRewrapKeepsRest(past: seq<MetaRow>, r: Request, landed: nat)
    requires r.Rewrap? && TookEffectAt(past, r, landed)
    ensures past[landed].encMek == r.encMek && past[landed].recovery == r.recovery
    ensures past[landed].(encMek := past[landed - 1].encMek, recovery := past[landed - 1].recovery) == past[landed - 1]
  {
  }

  /** Both public keys are gone, or both secrets are the ones in the row that was read, moved to the new MEK. */
  predicate PqcCarried(read: MetaRow, r: Request, after: MetaRow)
    requires r.prior.Sealed? && r.encMek.Sealed?
  {
    || (after.kemPublic.None? && after.sigPublic.None?)
    || (&& read.kemSecret.Some? && read.sigSecret.Some? && after.kemSecret.Some? && after.sigSecret.Some?
        && Resealed(read.kemSecret.value, after.kemSecret.value,
                    PqcWrapKey(r.prior.plaintext, read.salt), PqcWrapKey(r.encMek.plaintext, read.salt))
        && Resealed(read.sigSecret.value, after.sigSecret.value,
                    PqcWrapKey(r.prior.plaintext, read.salt), PqcWrapKey(r.encMek.plaintext, read.salt)))
  }

  lemma PqcAfterRotation(read: MetaRow, before: MetaRow, r: Request)
    requires r.Rotate? && BuiltFrom(read, r)
    ensures PqcCarried(read, r, Apply(before, r))
  {
  }

  /** The row a rotation was made from was stored before it took effect. */
  lemma ReadBeforeLanding(w: World, r: Request, read: nat, landed: nat)
    requires Inv(w) && r in w.built && r.Rotate?
    requires read < |w.past| && Matches(w.past[read], r) && TookEffectAt(w.past, r, landed)
    ensures read < landed
  {
    assert r.recovery in NewEnvelopes(r) && r.prior !in NewEnvelopes(r);
  }

  /**
   * In every run, the row right after a landed rotation has lost both public
   * keys, or holds both secrets of the row that the rotation was made from,
   * moved from that row's MEK to the new one; the public keys go only when a
   * secret was not carried.
   */
  lemma PqcThroughout(w: World, events: seq<Event>, r: Request, landed: nat)
    requires Initial(w) && r.Rotate? && r in Run(w, events).log
    requires TookEffectAt(Run(w, events).past, r, landed)
    ensures var past := Run(w, events).past;
            && RotatedFrom(past[landed - 1], r, past[landed])
            && exists i: nat | i < landed ::
              && BuiltFrom(past[i], r) && OneMek(past[i]) && MekOf(past[i]) == r.prior.plaintext
              && PqcCarried(past[i], r, past[landed])
  {
    RunKeepsInv(w, events);
    RunKeepsLineage(w, events);
    var t := Run(w, events);
    assert r in t.built;
    var i: nat :| i < |t.past| && BuiltFrom(t.past[i], r);
    RowsAlike(t, i);
    ReadBeforeLanding(t, r, i, landed);
    PqcAfterRotation(t.past[i], t.past[landed - 1], r);
  }

  // ---------------------------------------------------------------- growth

  /** Nothing recorded is ever forgotten. */
  predicate Grows(w: World, w': World) {
    w.past <= w'.past && w.log <= w'.log && w.built <= w'.built && w.sent <= w'.sent
  }

  lemma NextGrows(w: World, e: Event)
    requires w.past != []
    ensures Grows(w, Next(w, e))
  {
  }

  /** Envelopes sealed under fresh nonces make a request that may be built. */
  lemma FreshNonceMayBuild(w: World, read: nat, r: Request, nonce: nat)
    requires Inv(w) && FreshNonce(KnownEnvelopes(w), nonce)
    requires read < |w.past| && BuiltFrom(w.past[read], r)
    requires r.encMek.Sealed? && r.encMek.nonce >= nonce && r.recovery.Sealed? && r.recovery.nonce >= nonce
    ensures MayBuild(w, r) && r !in w.sent
  {
  }
}
