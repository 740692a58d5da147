/**
 * The epoch-bound wrap of a keyring, and the compare-and-swap on
 * (keyring_ciphertext, keyring_epoch) that rewrapKeyringUnderNewMek asks of its caller.
 */
module KeyringWrap {
  import opened Wrappers
  import opened Text
  import opened Symbolic
  import opened KeyringBinding
  import Utf8
  import Keyring

  datatype WrapError =
    | BadBinding(binding: BindingError)
    | CannotOpen(crypto: CryptoError)
    | CannotDecode(reason: Keyring.KeyringError)
    | EpochExhausted

  function WrapKey(mek: Bytes, salt: Utf16): Key {
    Subkey(mek, KeyringWrap, salt)
  }

  /** wrapKeyring, with the nonce it drew */
  function WrapKeyring(k: Keyring.VaultKeyring, mek: Bytes, salt: Utf16, b: Binding, nonce: nat)
    : Result<Column, WrapError>
  {
    match AadBytes(b)
    case Failure(e) => Failure(BadBinding(e))
    case Success(aad) => Success(Sealed(WrapKey(mek, salt), aad, Utf8.Encode(Keyring.EncodeKeyring(k)), nonce))
  }

  function DecodePlaintext(plaintext: Bytes): Result<Keyring.VaultKeyring, WrapError> {
    match Utf8.Decode(plaintext)
    case None => Failure(CannotDecode(Keyring.NotAnObject))
    case Some(text) =>
      match Keyring.Decoded(text)
      case Failure(e) => Failure(CannotDecode(e))
      case Success(k) => Success(k)
  }

  /** unwrapKeyring */
  function UnwrapKeyring(c: Column, mek: Bytes, salt: Utf16, b: Binding): Result<Keyring.VaultKeyring, WrapError> {
    match AadBytes(b)
    case Failure(e) => Failure(BadBinding(e))
    case Success(aad) =>
      match OpenWith(c, WrapKey(mek, salt), aad)
      case Failure(e) => Failure(CannotOpen(e))
      case Success(plaintext) => DecodePlaintext(plaintext)
  }

  lemma DecodePlaintextOf(k: Keyring.VaultKeyring)
    requires Keyring.Valid(k)
    ensures DecodePlaintext(Utf8.Encode(Keyring.EncodeKeyring(k))) == Success(Keyring.Sorted(k))
  {
    Keyring.EncodedWellFormed(k);
    Utf8.DecodeEncode(Keyring.EncodeKeyring(k));
    Keyring.DecodeEncode(k);
  }

  /** A wrapped keyring opens under its own key and binding, and under no other. */
  lemma UnwrapWrap(
    k: Keyring.VaultKeyring, mek: Bytes, salt: Utf16, b: Binding, nonce: nat, mek': Bytes, salt': Utf16, b': Binding)
    requires Keyring.Valid(k) && AadBytes(b).Success?
    ensures var c := WrapKeyring(k, mek, salt, b, nonce).value;
            && UnwrapKeyring(c, mek, salt, b) == Success(Keyring.Sorted(k))
            && (UnwrapKeyring(c, mek', salt', b').Success? <==>
                  mek' == mek && salt' == salt && AadBytes(b') == AadBytes(b))
  {
    DecodePlaintextOf(k);
  }

  /** The user id has UUID shape and the epoch is one of the accepted integers. */
  ghost predicate Binds(b: Binding) {
    && b.userId.JsString? && IsUuid(b.userId.s)
    && exists epoch :: DenotesEpoch(b.keyringEpoch, epoch)
  }

  /** Without such a binding nothing is wrapped and nothing opens, whatever the blob. */
  lemma BindingRequired(k: Keyring.VaultKeyring, c: Column, mek: Bytes, salt: Utf16, b: Binding, nonce: nat)
    ensures WrapKeyring(k, mek, salt, b, nonce).Success? <==> Binds(b)
    ensures UnwrapKeyring(c, mek, salt, b).Success? ==> Binds(b)
    ensures !Binds(b) ==>
              && WrapKeyring(k, mek, salt, b, nonce).error.BadBinding?
              && UnwrapKeyring(c, mek, salt, b).error.BadBinding?
  {
    hide CanonicalEpoch, DecodePlaintext;
    AcceptedUserIds(b.userId);
    AcceptedEpochs(b.keyringEpoch);
  }

  datatype Rewrapped = Rewrapped(keyring: Keyring.VaultKeyring, ciphertext: Column, keyringEpoch: nat)

  /** rewrapKeyringUnderNewMek, with the nonce it drew */
  function RewrapKeyring(c: Column, oldMek: Bytes, newMek: Bytes, salt: Utf16, b: Binding, nonce: nat)
    : Result<Rewrapped, WrapError>
  {
    match CanonicalEpoch(b.keyringEpoch)
    case Failure(e) => Failure(BadBinding(e))
    case Success(digits) =>
      var next := Value(digits) + 1;
      if next > MAX_SAFE_INTEGER then Failure(EpochExhausted)
      else
        var keyring :- UnwrapKeyring(c, oldMek, salt, b);
        var ciphertext :- WrapKeyring(keyring, newMek, salt, Binding(b.userId, EpochNumber(next)), nonce);
        Success(Rewrapped(keyring, ciphertext, next))
  }

  /** What opens is a valid keyring. */
  lemma UnwrappedValid(c: Column, mek: Bytes, salt: Utf16, b: Binding)
    ensures UnwrapKeyring(c, mek, salt, b).Success? ==> Keyring.Valid(UnwrapKeyring(c, mek, salt, b).value)
  {
    hide Keyring.Decoded, Keyring.Valid, AadBytes;
    if UnwrapKeyring(c, mek, salt, b).Success? {
      Keyring.DecodedIff(Utf8.Decode(c.plaintext).value, UnwrapKeyring(c, mek, salt, b).value);
    }
  }

  lemma BoundAt(a: Account, epoch: nat)
    ensures AadBytes(BindingAt(a, epoch)).Success? <==> IsUuid(a.userId) && 1 <= epoch <= MAX_SAFE_INTEGER
  {
    assert (epoch as real).Floor == epoch;
  }

  /**
   * A rewrap succeeds exactly when the blob opens and the epoch can still rise;
   * it then gives the keyring that was wrapped, the next epoch, and a blob that
   * opens under the new MEK at that epoch to the same contents.
   */
  lemma RewrapSucceedsIff(c: Column, oldMek: Bytes, newMek: Bytes, a: Account, epoch: nat, nonce: nat)
    ensures var r := RewrapKeyring(c, oldMek, newMek, a.salt, BindingAt(a, epoch), nonce);
            var found := UnwrapKeyring(c, oldMek, a.salt, BindingAt(a, epoch));
            && (r.Success? <==> found.Success? && epoch < MAX_SAFE_INTEGER)
            && (r.Success? ==>
                  && r.value.keyring == found.value && r.value.keyringEpoch == epoch + 1
                  && UnwrapKeyring(r.value.ciphertext, newMek, a.salt, BindingAt(a, epoch + 1)) ==
                     Success(Keyring.Sorted(found.value)))
            && (found.Success? && epoch == MAX_SAFE_INTEGER ==> r == Failure(EpochExhausted))
  {
    hide AadBytes, DecodePlaintext, OpenWith, Keyring.Valid, Keyring.Sorted;
    BoundAt(a, epoch);
    BoundAt(a, epoch + 1);
    var b, next := BindingAt(a, epoch), BindingAt(a, epoch + 1);
    assert (epoch as real).Floor == epoch && ((epoch + 1) as real).Floor == epoch + 1;
    ValueOfDigits(epoch);
    var found := UnwrapKeyring(c, oldMek, a.salt, b);
    UnwrappedValid(c, oldMek, a.salt, b);
    if found.Success? && epoch < MAX_SAFE_INTEGER {
      UnwrapWrap(found.value, newMek, a.salt, next, nonce, newMek, a.salt, next);
    }
  }

  function EpochNumber(epoch: nat): JsValue {
    JsNumber(epoch as real)
  }

  // ------------------------------------------------------- racing rewraps

  datatype Account = Account(userId: Utf16, salt: Utf16)

  /** The keyring columns of a vault row, and the MEK its wrappers hold. */
  datatype Row = Row(ciphertext: Column, epoch: nat, mek: Bytes)

  /** One UPDATE: matches both prior values, sets all three new ones. */
  datatype Request = Request(priorCiphertext: Column, priorEpoch: nat, next: Row)

  datatype State = State(past: seq<Row>, sent: set<Request>, log: seq<Request>)

  /** Build: some session rewraps a row it read. Deliver: a request reaches the database. */
  datatype Event =
    | Build(snapshot: nat, newMek: Bytes, nonce: nat)
    | Deliver(request: Request)

  function BindingAt(a: Account, epoch: nat): Binding {
    Binding(JsString(a.userId), EpochNumber(epoch))
  }

  function Open(a: Account, row: Row): Result<Keyring.VaultKeyring, WrapError> {
    UnwrapKeyring(row.ciphertext, row.mek, a.salt, BindingAt(a, row.epoch))
  }

  function BuildRequest(a: Account, from: Row, newMek: Bytes, nonce: nat): Option<Request> {
    match RewrapKeyring(from.ciphertext, from.mek, newMek, a.salt, BindingAt(a, from.epoch), nonce)
    case Failure(_) => None
    case Success(r) => Some(Request(from.ciphertext, from.epoch, Row(r.ciphertext, r.keyringEpoch, newMek)))
  }

  predicate Matches(row: Row, r: Request) {
    row.ciphertext == r.priorCiphertext && row.epoch == r.priorEpoch
  }

  function Sent(s: State, r: Request): State {
    s.(sent := s.sent + {r})
  }

  function Applied(s: State, r: Request): State {
    s.(past := s.past + [r.next], log := s.log + [r])
  }

  /** A sent request may arrive late, twice or never. */
  function Next(a: Account, s: State, e: Event): (t: State)
    requires s.past != []
    ensures t.past != []
  {
    match e
    case Build(i, newMek, nonce) =>
      if i >= |s.past| then s
      else (match BuildRequest(a, s.past[i], newMek, nonce)
        case None => s
        case Some(r) => Sent(s, r))
    case Deliver(r) =>
      if r in s.sent && Matches(s.past[|s.past| - 1], r) then Applied(s, r) else s
  }

  function Run(a: Account, s: State, events: seq<Event>): (r: State)
    requires s.past != []
    ensures r.past != []
  {
    if events == [] then s
    else Next(a, Run(a, s, events[..|events| - 1]), events[|events| - 1])
  }

  ghost predicate Inv(a: Account, contents: Keyring.VaultKeyring, s: State) {
    && s.past != []
    && |s.log| == |s.past| - 1
    && (forall i | 0 <= i < |s.past| ::
          s.past[i].epoch == s.past[0].epoch + i && Open(a, s.past[i]) == Success(contents))
    && (forall i | 0 <= i < |s.log| :: s.log[i].priorEpoch == s.past[i].epoch && s.log[i].next == s.past[i + 1])
    && (forall r | r in s.sent :: r.next.epoch == r.priorEpoch + 1 && Open(a, r.next) == Success(contents))
  }

  lemma BuiltRequestOpens(a: Account, contents: Keyring.VaultKeyring, from: Row, newMek: Bytes, nonce: nat)
    requires Keyring.Valid(contents) && Keyring.Sorted(contents) == contents
    requires Open(a, from) == Success(contents)
    requires BuildRequest(a, from, newMek, nonce).Some?
    ensures var r := BuildRequest(a, from, newMek, nonce).value;
            && r.priorCiphertext == from.ciphertext && r.priorEpoch == from.epoch
            && r.next.epoch == from.epoch + 1
            && Open(a, r.next) == Success(contents)
  {
    ValueOfDigits(from.epoch);
    assert (from.epoch as real).Floor == from.epoch;
    var b := BindingAt(a, from.epoch + 1);
    UnwrapWrap(contents, newMek, a.salt, b, nonce, newMek, a.salt, b);
  }

  lemma SentKeepsInv(a: Account, contents: Keyring.VaultKeyring, s: State, r: Request)
    requires Inv(a, contents, s)
    requires r.next.epoch == r.priorEpoch + 1 && Open(a, r.next) == Success(contents)
    ensures Inv(a, contents, Sent(s, r))
  {
  }

  lemma AppliedKeepsInv(a: Account, contents: Keyring.VaultKeyring, s: State, r: Request)
    requires Inv(a, contents, s)
    requires r in s.sent && Matches(s.past[|s.past| - 1], r)
    ensures Inv(a, contents, Applied(s, r))
  {
    hide Open;
  }

  lemma NextKeepsInv(a: Account, contents: Keyring.VaultKeyring, s: State, e: Event)
    requires Keyring.Valid(contents) && Keyring.Sorted(contents) == contents
    requires Inv(a, contents, s)
    ensures Inv(a, contents, Next(a, s, e))
  {
    match e
    case Build(i, newMek, nonce) =>
      if i < |s.past| && BuildRequest(a, s.past[i], newMek, nonce).Some? {
        BuiltRequestOpens(a, contents, s.past[i], newMek, nonce);
        SentKeepsInv(a, contents, s, BuildRequest(a, s.past[i], newMek, nonce).value);
      }
    case Deliver(r) =>
      if r in s.sent && Matches(s.past[|s.past| - 1], r) {
        AppliedKeepsInv(a, contents, s, r);
      }
  }

  /** A vault whose stored blob opens, before anyone has rewrapped it. */
  ghost predicate Initial(a: Account, contents: Keyring.VaultKeyring, s: State) {
    && Keyring.Valid(contents) && Keyring.Sorted(contents) == contents
    && |s.past| == 1 && Open(a, s.past[0]) == Success(contents)
    && s.sent == {} && s.log == []
  }

  /** Every wrapped valid keyring is such a start, so the runs below exist. */
  lemma WrappedVaultIsInitial(a: Account, k: Keyring.VaultKeyring, mek: Bytes, epoch: nat, nonce: nat)
    requires Keyring.Valid(k) && IsUuid(a.userId) && 1 <= epoch <= MAX_SAFE_INTEGER
    ensures var c := WrapKeyring(k, mek, a.salt, BindingAt(a, epoch), nonce);
            c.Success? && Initial(a, Keyring.Sorted(k), State([Row(c.value, epoch, mek)], {}, []))
  {
    assert (epoch as real).Floor == epoch;
    var b := BindingAt(a, epoch);
    UnwrapWrap(k, mek, a.salt, b, nonce, mek, a.salt, b);
    Keyring.DecodeEncode(k);
    Keyring.SortTwice(k.credentials);
    Keyring.SortTwice(k.transactions);
  }

  lemma {:induction false} RunKeepsInv(a: Account, contents: Keyring.VaultKeyring, s: State, events: seq<Event>)
    requires Initial(a, contents, s)
    ensures Inv(a, contents, Run(a, s, events))
  {
    if events != [] {
      RunKeepsInv(a, contents, s, events[..|events| - 1]);
      NextKeepsInv(a, contents, Run(a, s, events[..|events| - 1]), events[|events| - 1]);
    }
  }

  /**
   * In every run the stored blob opens, under the stored epoch and the current
   * MEK, to the original contents; each epoch has at most one winner, and the
   * epoch rises by one with each.
   */
  lemma RacingRewraps(a: Account, contents: Keyring.VaultKeyring, s: State, events: seq<Event>)
    requires Initial(a, contents, s)
    ensures var t := Run(a, s, events);
            && Open(a, t.past[|t.past| - 1]) == Success(contents)
            && t.past[|t.past| - 1].epoch == s.past[0].epoch + |t.log|
            && (forall i, j | 0 <= i < j < |t.log| :: t.log[i].priorEpoch < t.log[j].priorEpoch)
  {
    RunKeepsInv(a, contents, s, events);
    RunKeepsFirst(a, s, events);
  }

  lemma {:induction false} RunKeepsFirst(a: Account, s: State, events: seq<Event>)
    requires s.past != []
    ensures Run(a, s, events).past[0] == s.past[0]
  {
    if events != [] {
      RunKeepsFirst(a, s, events[..|events| - 1]);
    }
  }

  /** A blob that opens at one epoch opens at no other, under any key. */
  lemma OneEpochPerBlob(a: Account, row: Row, epoch: nat, mek: Bytes, salt: Utf16)
    requires Open(a, row).Success? && epoch != row.epoch
    ensures UnwrapKeyring(row.ciphertext, mek, salt, BindingAt(a, epoch)).Failure?
  {
    var b, b' := BindingAt(a, row.epoch), BindingAt(a, epoch);
    assert (row.epoch as real).Floor == row.epoch && (epoch as real).Floor == epoch;
    if AadBytes(b').Success? {
      AadBytesInjective(b, b');
      DigitsInjective(row.epoch, epoch);
    }
  }

  /** An older blob put back under a newer epoch never opens. */
  lemma RollbackNeverOpens(
    a: Account, contents: Keyring.VaultKeyring, s: State, events: seq<Event>, i: nat, j: nat, mek: Bytes, salt: Utf16)
    requires Initial(a, contents, s)
    requires i < j < |Run(a, s, events).past|
    ensures var t := Run(a, s, events);
            UnwrapKeyring(t.past[i].ciphertext, mek, salt, BindingAt(a, t.past[j].epoch)).Failure?
  {
    RunKeepsInv(a, contents, s, events);
    var t := Run(a, s, events);
    OneEpochPerBlob(a, t.past[i], t.past[j].epoch, mek, salt);
  }
}
