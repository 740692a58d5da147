/** The projection of a keyring handed to a co-admin (src/lib/co-admin-keyring.ts). */
module CoAdminKeyring {
  import opened Wrappers
  import opened Text
  import opened Json
  import opened Symbolic
  import Keyring

  type DataKeyKind = Keyring.DataKeyKind
  type DataKeyEntry = Keyring.DataKeyEntry

  /** No field for a secret: data keys and nothing else. */
  datatype CoAdminKeyring = CoAdminKeyring(
    version: nat,
    credentials: seq<DataKeyEntry>,
    transactions: seq<DataKeyEntry>)

  datatype CoAdminError =
    | BadBinding
    | BadCakLength
    | CannotOpen(error: CryptoError)
    | CannotDecode(reason: Keyring.KeyringError)

  const COADMIN_KEYRING_VERSION: nat := 1
  const CAK_BYTES: nat := 32
  const AAD_PREFIX: string := "orangerails-coadmin-keyring-v1"

  /** projectKeyringForCoAdmin */
  function Project(k: Keyring.VaultKeyring): CoAdminKeyring {
    CoAdminKeyring(COADMIN_KEYRING_VERSION, k.credentials, k.transactions)
  }

  predicate Valid(p: CoAdminKeyring) {
    && p.version == COADMIN_KEYRING_VERSION
    && Keyring.ValidEntries(p.credentials)
    && Keyring.ValidEntries(p.transactions)
  }

  function EntriesFor(p: CoAdminKeyring, kind: DataKeyKind): seq<DataKeyEntry> {
    if kind == Keyring.Credentials then p.credentials else p.transactions
  }

  function CoAdminDataKeyAt(p: CoAdminKeyring, kind: DataKeyKind, generation: nat)
    : Result<DataKeyEntry, Keyring.KeyringError>
  {
    Keyring.EntryAt(EntriesFor(p, kind), generation)
  }

  function LatestCoAdminDataKey(p: CoAdminKeyring, kind: DataKeyKind): Result<DataKeyEntry, Keyring.KeyringError> {
    var entries := EntriesFor(p, kind);
    if entries == [] then Failure(Keyring.NoEntries) else Success(Keyring.Best(entries))
  }

  // ----------------------------------------------------------------- binding

  datatype CoAdminBinding = CoAdminBinding(ownerUserId: Utf16, grantId: Utf16)

  function BindingTuple(b: CoAdminBinding): Json {
    JArr([JStr(Ascii(AAD_PREFIX)), JStr(b.ownerUserId), JStr(b.grantId)])
  }

  /** aadBytes: UTF-8 of the JSON tuple, refused for an empty field. */
  function AadBytes(b: CoAdminBinding): Result<Bytes, CoAdminError> {
    if b.ownerUserId == [] || b.grantId == [] then Failure(BadBinding)
    else Success(Serialize(BindingTuple(b)))
  }

  /** Different (owner, grant) pairs never share their bytes, lone surrogates included. */
  lemma AadBytesInjective(a: CoAdminBinding, b: CoAdminBinding)
    requires AadBytes(a).Success? && AadBytes(b).Success?
    ensures AadBytes(a) == AadBytes(b) <==> a == b
  {
    SerializeInjective(BindingTuple(a), BindingTuple(b));
    if BindingTuple(a) == BindingTuple(b) {
      assert BindingTuple(a).items[1] == BindingTuple(b).items[1];
      assert BindingTuple(a).items[2] == BindingTuple(b).items[2];
    }
  }

  /** A plain delimiter would not do: two pairs, one text. */
  lemma DelimiterWouldCollide()
    ensures exists a: CoAdminBinding, b: CoAdminBinding ::
              a != b && a.ownerUserId + [124] + a.grantId == b.ownerUserId + [124] + b.grantId
  {
    var a := CoAdminBinding([120, 124, 120], [120]);
    var b := CoAdminBinding([120], [120, 124, 120]);
    assert a.ownerUserId + [124] + a.grantId == b.ownerUserId + [124] + b.grantId;
  }

  // ---------------------------------------------------- canonical encoding

  function Wire(p: CoAdminKeyring): Json {
    JObj([(Ascii("v"), JNum(p.version)),
          (Ascii("creds"), JArr(Keyring.WireEntries(Keyring.Sort(p.credentials)))),
          (Ascii("txns"), JArr(Keyring.WireEntries(Keyring.Sort(p.transactions))))])
  }

  function Sorted(p: CoAdminKeyring): CoAdminKeyring {
    p.(credentials := Keyring.Sort(p.credentials), transactions := Keyring.Sort(p.transactions))
  }

  function DecodeWire(j: Json): Result<CoAdminKeyring, Keyring.KeyringError> {
    if !j.JObj? then Failure(Keyring.NotAnObject)
    else if Keyring.FieldOf(j, Ascii("v")) != Some(JNum(COADMIN_KEYRING_VERSION)) then
      Failure(Keyring.UnsupportedVersion)
    else
      var credentials :- Keyring.EntriesOf(Keyring.FieldOf(j, Ascii("creds")));
      var transactions :- Keyring.EntriesOf(Keyring.FieldOf(j, Ascii("txns")));
      Success(CoAdminKeyring(COADMIN_KEYRING_VERSION, credentials, transactions))
  }

  lemma WireNamesDistinct(p: CoAdminKeyring)
    ensures Keyring.DistinctNames(Wire(p).fields)
  {
  }

  lemma DecodeWireOf(p: CoAdminKeyring)
    requires Valid(p)
    ensures DecodeWire(Wire(p)) == Success(Sorted(p)) && Valid(Sorted(p))
  {
    WireNamesDistinct(p);
    var fields := Wire(p).fields;
    Keyring.FieldAt(fields, 0);
    Keyring.FieldAt(fields, 1);
    Keyring.FieldAt(fields, 2);
    Keyring.EntriesOfWire(p.credentials);
    Keyring.EntriesOfWire(p.transactions);
  }

  /** A value decodes to exactly the valid projection it names, entries in any order and other fields ignored. */
  lemma DecodedIff(j: Json, p: CoAdminKeyring)
    ensures DecodeWire(j) == Success(p) <==>
              && Valid(p)
              && Keyring.FieldOf(j, Ascii("v")) == Some(JNum(p.version))
              && (exists creds :: Keyring.FieldOf(j, Ascii("creds")) == Some(JArr(creds))
                                  && Keyring.ItemsName(creds, p.credentials))
              && (exists txns :: Keyring.FieldOf(j, Ascii("txns")) == Some(JArr(txns))
                                 && Keyring.ItemsName(txns, p.transactions))
  {
    hide Keyring.EntriesOf, Keyring.ItemsName, Keyring.ValidEntries;
    Keyring.EntriesOfIff(Keyring.FieldOf(j, Ascii("creds")), p.credentials);
    Keyring.EntriesOfIff(Keyring.FieldOf(j, Ascii("txns")), p.transactions);
  }

  // ------------------------------------------------------------ seal and open

  /** sealCoAdminKeyring, with the nonce it drew */
  function SealCoAdminKeyring(p: CoAdminKeyring, cak: Bytes, b: CoAdminBinding, nonce: nat)
    : Result<Column, CoAdminError>
  {
    var aad :- AadBytes(b);
    if |cak| != CAK_BYTES then Failure(BadCakLength)
    else Success(Sealed(RawKey(cak), aad, Serialize(Wire(p)), nonce))
  }

  /** openCoAdminKeyring */
  function OpenCoAdminKeyring(c: Column, cak: Bytes, b: CoAdminBinding): Result<CoAdminKeyring, CoAdminError> {
    var aad :- AadBytes(b);
    if |cak| != CAK_BYTES then Failure(BadCakLength)
    else match OpenWith(c, RawKey(cak), aad)
      case Failure(e) => Failure(CannotOpen(e))
      case Success(plaintext) =>
        match Deserialize(plaintext)
        case None => Failure(CannotDecode(Keyring.NotAnObject))
        case Some(j) =>
          match DecodeWire(j)
          case Failure(e) => Failure(CannotDecode(e))
          case Success(p) => Success(p)
  }

  /** Sealing needs an owner, a grant and a key of the right length, and nothing else. */
  lemma SealsIff(p: CoAdminKeyring, cak: Bytes, b: CoAdminBinding, nonce: nat)
    ensures SealCoAdminKeyring(p, cak, b, nonce).Success? <==>
              b.ownerUserId != [] && b.grantId != [] && |cak| == 32
    ensures b.ownerUserId == [] || b.grantId == [] ==> SealCoAdminKeyring(p, cak, b, nonce) == Failure(BadBinding)
  {
  }

  /** A sealed projection opens under its own key, owner and grant, and under no other. */
  lemma OpensOnlyWhereSealed(
    p: CoAdminKeyring, cak: Bytes, b: CoAdminBinding, nonce: nat, cak': Bytes, b': CoAdminBinding)
    requires Valid(p)
    requires SealCoAdminKeyring(p, cak, b, nonce).Success?
    ensures var c := SealCoAdminKeyring(p, cak, b, nonce).value;
            && (OpenCoAdminKeyring(c, cak', b').Success? <==> cak' == cak && b' == b)
            && OpenCoAdminKeyring(c, cak, b) == Success(Sorted(p))
  {
    DeserializeSerialize(Wire(p));
    DecodeWireOf(p);
    if AadBytes(b').Success? {
      AadBytesInjective(b, b');
    }
  }
}
