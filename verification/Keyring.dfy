/** Envelope v3: generations of data keys and their canonical encoding (src/lib/keyring.ts). */
module Keyring {
  import opened Wrappers
  import opened Text
  import opened Json
  import Base64
  import Utf8

  datatype DataKeyKind = Credentials | Transactions

  datatype DataKeyEntry = DataKeyEntry(generation: nat, keyB64: Utf16)

  datatype VaultKeyring = VaultKeyring(
    version: nat,
    credentials: seq<DataKeyEntry>,
    transactions: seq<DataKeyEntry>,
    kemSecretB64: Option<Utf16>,
    sigSecretB64: Option<Utf16>)

  datatype KeyringError =
    | TooManyGenerations
    | NoEntries
    | NoSuchGeneration(generation: nat)
    | NotAnObject
    | UnsupportedVersion
    | BadSecret
    | MissingEntries
    | InvalidGeneration
    | NoKeyMaterial
    | DuplicateGeneration
    | WrongKeyLength

  const KEYRING_VERSION: nat := 1
  const DATA_KEY_BYTES: nat := 32
  const MAX_GENERATIONS: nat := 8

  /** A base64 string that decodes to a raw AES-256 key. */
  predicate IsDataKey(keyB64: Utf16) {
    keyB64 != [] && Base64.AtobLength(keyB64) == Some(DATA_KEY_BYTES)
  }

  predicate DistinctGenerations(entries: seq<DataKeyEntry>) {
    forall i, j | 0 <= i < j < |entries| :: entries[i].generation != entries[j].generation
  }

  predicate ValidEntries(entries: seq<DataKeyEntry>) {
    && 1 <= |entries| <= MAX_GENERATIONS
    && (forall i | 0 <= i < |entries| :: entries[i].generation >= 1 && IsDataKey(entries[i].keyB64))
    && DistinctGenerations(entries)
  }

  predicate Valid(k: VaultKeyring) {
    k.version == KEYRING_VERSION && ValidEntries(k.credentials) && ValidEntries(k.transactions)
  }

  // ----------------------------------------------------------------- lookup

  function EntriesFor(k: VaultKeyring, kind: DataKeyKind): seq<DataKeyEntry> {
    if kind == Credentials then k.credentials else k.transactions
  }

  /** A fold that keeps the first of the entries with the greatest generation. */
  function Best(entries: seq<DataKeyEntry>): DataKeyEntry
    requires entries != []
  {
    var last := entries[|entries| - 1];
    if |entries| == 1 then last
    else
      var best := Best(entries[..|entries| - 1]);
      if last.generation > best.generation then last else best
  }

  lemma {:induction false} BestIsGreatest(entries: seq<DataKeyEntry>)
    requires entries != []
    ensures Best(entries) in entries
    ensures forall e | e in entries :: e.generation <= Best(entries).generation
  {
    if |entries| > 1 {
      BestIsGreatest(entries[..|entries| - 1]);
      assert entries == entries[..|entries| - 1] + [entries[|entries| - 1]];
    }
  }

  function LatestDataKey(k: VaultKeyring, kind: DataKeyKind): Result<DataKeyEntry, KeyringError> {
    var entries := EntriesFor(k, kind);
    if entries == [] then Failure(NoEntries) else Success(Best(entries))
  }

  /** The first entry of that generation. */
  function Find(entries: seq<DataKeyEntry>, generation: nat): Option<DataKeyEntry> {
    if entries == [] then None
    else if entries[0].generation == generation then Some(entries[0])
    else Find(entries[1..], generation)
  }

  function EntryAt(entries: seq<DataKeyEntry>, generation: nat): Result<DataKeyEntry, KeyringError> {
    match Find(entries, generation)
    case None => Failure(NoSuchGeneration(generation))
    case Some(e) => Success(e)
  }

  function DataKeyAt(k: VaultKeyring, kind: DataKeyKind, generation: nat): Result<DataKeyEntry, KeyringError> {
    EntryAt(EntriesFor(k, kind), generation)
  }

  /** With distinct generations, Find sees the set of entries and not their order. */
  lemma {:induction false} FindMeans(entries: seq<DataKeyEntry>, generation: nat)
    requires DistinctGenerations(entries)
    ensures forall e :: Find(entries, generation) == Some(e) <==> e in entries && e.generation == generation
  {
    if entries != [] {
      FindMeans(entries[1..], generation);
      assert entries == [entries[0]] + entries[1..];
      forall e | e in entries && e.generation == generation && entries[0].generation == generation
        ensures e == entries[0]
      {
      }
    }
  }

  lemma {:induction false} FindPrepend(entries: seq<DataKeyEntry>, more: seq<DataKeyEntry>, generation: nat)
    requires Find(entries, generation).Some?
    ensures Find(entries + more, generation) == Find(entries, generation)
  {
    if entries[0].generation != generation {
      FindPrepend(entries[1..], more, generation);
      assert (entries + more)[1..] == entries[1..] + more;
    }
  }

  /** A lookup gives the entry that the named list holds at that generation, or names the generation that is missing. */
  lemma DataKeyAtMeans(k: VaultKeyring, kind: DataKeyKind, generation: nat, e: DataKeyEntry)
    requires Valid(k)
    ensures DataKeyAt(k, kind, generation) == Success(e) <==>
            && e.generation == generation
            && (kind == Credentials ==> e in k.credentials) && (kind == Transactions ==> e in k.transactions)
    ensures DataKeyAt(k, kind, generation).Failure? ==>
              DataKeyAt(k, kind, generation) == Failure(NoSuchGeneration(generation))
  {
    hide IsDataKey;
    FindMeans(EntriesFor(k, kind), generation);
  }

  /** The latest key of the named list is in it, and none of that list is newer. */
  lemma LatestMeans(k: VaultKeyring, kind: DataKeyKind)
    requires Valid(k)
    ensures LatestDataKey(k, kind).Success?
    ensures var latest := LatestDataKey(k, kind).value;
            && (kind == Credentials ==>
                  latest in k.credentials && forall e | e in k.credentials :: e.generation <= latest.generation)
            && (kind == Transactions ==>
                  latest in k.transactions && forall e | e in k.transactions :: e.generation <= latest.generation)
  {
    hide IsDataKey;
    BestIsGreatest(EntriesFor(k, kind));
  }

  // -------------------------------------------------------------- mutations

  const TWO_TO_THE_53: nat := 0x20_0000_0000_0000

  /** generation + 1 in double precision: exact below 2^53, then rounded to even. */
  function JsIncrement(g: nat): nat {
    if g < TWO_TO_THE_53 then g + 1
    else if g < 2 * TWO_TO_THE_53 && g % 4 == 2 then g + 2
    else g
  }

  /** When adding one to g gives a larger double. */
  predicate Rises(g: nat) {
    g < TWO_TO_THE_53 || (g < 2 * TWO_TO_THE_53 && g % 4 == 2)
  }

  /** generateVaultKeyring, with the two random keys it drew */
  function GenerateVaultKeyring(credentialsKey: Utf16, transactionsKey: Utf16): VaultKeyring {
    VaultKeyring(KEYRING_VERSION, [DataKeyEntry(1, credentialsKey)], [DataKeyEntry(1, transactionsKey)], None, None)
  }

  function WithPqcSecrets(k: VaultKeyring, kem: Option<Utf16>, sig: Option<Utf16>): VaultKeyring {
    k.(kemSecretB64 := kem, sigSecretB64 := sig)
  }

  function AddDataKeyGeneration(k: VaultKeyring, kind: DataKeyKind, freshKey: Utf16)
    : Result<VaultKeyring, KeyringError>
  {
    var entries := EntriesFor(k, kind);
    if |entries| >= MAX_GENERATIONS then Failure(TooManyGenerations)
    else
      var latest :- LatestDataKey(k, kind);
      var grown := entries + [DataKeyEntry(JsIncrement(latest.generation), freshKey)];
      Success(if kind == Credentials then k.(credentials := grown) else k.(transactions := grown))
  }

  lemma BestOfSnoc(entries: seq<DataKeyEntry>, e: DataKeyEntry)
    requires entries != [] && e.generation > Best(entries).generation
    ensures Best(entries + [e]) == e
  {
    assert (entries + [e])[..|entries|] == entries;
  }

  /**
   * A new generation is the newest one plus one, holds the fresh key, and leaves
   * the other list, the secrets and every earlier entry alone.
   */
  lemma AddedIsLatest(k: VaultKeyring, kind: DataKeyKind, freshKey: Utf16)
    requires Valid(k) && |EntriesFor(k, kind)| < MAX_GENERATIONS
    requires LatestDataKey(k, kind).value.generation < TWO_TO_THE_53
    ensures var newest := LatestDataKey(k, kind).value.generation;
            var r := AddDataKeyGeneration(k, kind, freshKey);
            && r.Success?
            && LatestDataKey(r.value, kind) == Success(DataKeyEntry(newest + 1, freshKey))
            && |EntriesFor(r.value, kind)| == |EntriesFor(k, kind)| + 1
            && EntriesFor(k, kind) <= EntriesFor(r.value, kind)
            && (kind == Credentials ==> r.value.transactions == k.transactions)
            && (kind == Transactions ==> r.value.credentials == k.credentials)
            && r.value.kemSecretB64 == k.kemSecretB64 && r.value.sigSecretB64 == k.sigSecretB64
  {
    hide IsDataKey, Best;
    var entries := EntriesFor(k, kind);
    BestOfSnoc(entries, DataKeyEntry(Best(entries).generation + 1, freshKey));
  }

  /** A full list takes no more. */
  lemma FullTakesNoMore(k: VaultKeyring, kind: DataKeyKind, freshKey: Utf16)
    requires Valid(k)
    ensures AddDataKeyGeneration(k, kind, freshKey).Failure? <==> |EntriesFor(k, kind)| == MAX_GENERATIONS
    ensures AddDataKeyGeneration(k, kind, freshKey).Failure? ==>
              AddDataKeyGeneration(k, kind, freshKey) == Failure(TooManyGenerations)
  {
    hide IsDataKey, Best;
  }

  /** What a fresh keyring holds, and what setting its secrets leaves. */
  lemma FreshKeyringHolds(credentialsKey: Utf16, transactionsKey: Utf16, kem: Option<Utf16>, sig: Option<Utf16>)
    requires IsDataKey(credentialsKey) && IsDataKey(transactionsKey)
    ensures var k := GenerateVaultKeyring(credentialsKey, transactionsKey);
            var with := WithPqcSecrets(k, kem, sig);
            && LatestDataKey(k, Credentials) == Success(DataKeyEntry(1, credentialsKey))
            && LatestDataKey(k, Transactions) == Success(DataKeyEntry(1, transactionsKey))
            && k.kemSecretB64.None? && k.sigSecretB64.None?
            && with.kemSecretB64 == kem && with.sigSecretB64 == sig
            && with.(kemSecretB64 := None, sigSecretB64 := None) == k
  {
    hide IsDataKey;
  }

  lemma SnocDistinct(entries: seq<DataKeyEntry>, e: DataKeyEntry)
    requires DistinctGenerations(entries)
    ensures DistinctGenerations(entries + [e]) <==> forall x | x in entries :: x.generation != e.generation
  {
    var grown := entries + [e];
    assert forall i | 0 <= i < |entries| :: grown[i] == entries[i] && entries[i] in entries;
    if exists x | x in entries :: x.generation == e.generation {
      var i :| 0 <= i < |entries| && entries[i].generation == e.generation;
      assert grown[i].generation == grown[|entries|].generation;
    }
  }

  lemma SnocValid(entries: seq<DataKeyEntry>, e: DataKeyEntry)
    requires ValidEntries(entries) && |entries| < MAX_GENERATIONS
    requires e.generation >= 1 && IsDataKey(e.keyB64)
    ensures ValidEntries(entries + [e]) <==> forall x | x in entries :: x.generation != e.generation
  {
    SnocDistinct(entries, e);
    var grown := entries + [e];
    forall i | 0 <= i < |grown|
      ensures grown[i].generation >= 1 && IsDataKey(grown[i].keyB64)
    {
      assert grown[i] == if i < |entries| then entries[i] else e;
    }
  }

  /** Adding a generation keeps the keyring valid exactly when the counter can still rise. */
  lemma AddKeepsValid(k: VaultKeyring, kind: DataKeyKind, freshKey: Utf16)
    requires Valid(k) && IsDataKey(freshKey) && |EntriesFor(k, kind)| < MAX_GENERATIONS
    ensures AddDataKeyGeneration(k, kind, freshKey).Success?
    ensures Valid(AddDataKeyGeneration(k, kind, freshKey).value) <==>
            Rises(LatestDataKey(k, kind).value.generation)
  {
    var entries := EntriesFor(k, kind);
    BestIsGreatest(entries);
    var g := JsIncrement(Best(entries).generation);
    SnocValid(entries, DataKeyEntry(g, freshKey));
    assert Rises(Best(entries).generation) <==> forall x | x in entries :: x.generation != g;
  }

  /** A valid keyring at the top of the double range, where the addition breaks it. */
  lemma AddCanBreakValidity(k: VaultKeyring, freshKey: Utf16)
    requires Valid(k) && IsDataKey(freshKey)
    requires k.credentials == [DataKeyEntry(TWO_TO_THE_53, freshKey)]
    ensures !Valid(AddDataKeyGeneration(k, Credentials, freshKey).value)
  {
    AddKeepsValid(k, Credentials, freshKey);
  }

  // ----------------------------------------------------- canonical encoding

  predicate Ascending(entries: seq<DataKeyEntry>) {
    forall i, j | 0 <= i < j < |entries| :: entries[i].generation < entries[j].generation
  }

  function Insert(e: DataKeyEntry, entries: seq<DataKeyEntry>): seq<DataKeyEntry> {
    if entries == [] then [e]
    else if e.generation <= entries[0].generation then [e] + entries
    else [entries[0]] + Insert(e, entries[1..])
  }

  /** A stable sort by generation. */
  function Sort(entries: seq<DataKeyEntry>): seq<DataKeyEntry> {
    if entries == [] then [] else Insert(entries[0], Sort(entries[1..]))
  }

  lemma {:induction false} InsertMembers(e: DataKeyEntry, entries: seq<DataKeyEntry>)
    ensures |Insert(e, entries)| == |entries| + 1
    ensures forall x :: x in Insert(e, entries) <==> x == e || x in entries
  {
    if entries != [] && e.generation > entries[0].generation {
      InsertMembers(e, entries[1..]);
      assert entries == [entries[0]] + entries[1..];
    }
  }

  lemma AscendingCons(first: DataKeyEntry, rest: seq<DataKeyEntry>)
    requires Ascending(rest) && forall x | x in rest :: first.generation < x.generation
    ensures Ascending([first] + rest)
  {
    assert forall i | 0 <= i < |rest| :: rest[i] in rest;
  }

  lemma {:induction false} InsertAscending(e: DataKeyEntry, entries: seq<DataKeyEntry>)
    requires Ascending(entries)
    requires forall x | x in entries :: x.generation != e.generation
    ensures Ascending(Insert(e, entries))
    ensures |Insert(e, entries)| == |entries| + 1
    ensures forall x :: x in Insert(e, entries) <==> x == e || x in entries
  {
    InsertMembers(e, entries);
    if entries == [] {
    } else if e.generation <= entries[0].generation {
      AscendingCons(e, entries);
    } else {
      InsertMembers(e, entries[1..]);
      InsertAscending(e, entries[1..]);
      AscendingCons(entries[0], Insert(e, entries[1..]));
    }
  }

  lemma {:induction false} SortAscending(entries: seq<DataKeyEntry>)
    requires DistinctGenerations(entries)
    ensures Ascending(Sort(entries))
    ensures |Sort(entries)| == |entries|
    ensures forall x :: x in Sort(entries) <==> x in entries
  {
    if entries != [] {
      SortAscending(entries[1..]);
      InsertAscending(entries[0], Sort(entries[1..]));
      assert entries == [entries[0]] + entries[1..];
    }
  }

  function EntrySet(entries: seq<DataKeyEntry>): set<DataKeyEntry> {
    set e | e in entries
  }

  lemma EmptyEntries(entries: seq<DataKeyEntry>)
    ensures EntrySet(entries) == {} <==> entries == []
  {
    if entries != [] {
      assert entries[0] in EntrySet(entries);
    }
  }

  lemma TailSet(entries: seq<DataKeyEntry>)
    requires Ascending(entries) && entries != []
    ensures EntrySet(entries[1..]) == EntrySet(entries) - {entries[0]}
    ensures forall e | e in EntrySet(entries) :: entries[0].generation < e.generation || e == entries[0]
  {
  }

  /** An ascending sequence is determined by its set of elements. */
  lemma {:induction false} AscendingUnique(a: seq<DataKeyEntry>, b: seq<DataKeyEntry>)
    requires Ascending(a) && Ascending(b) && EntrySet(a) == EntrySet(b)
    ensures a == b
  {
    EmptyEntries(a);
    EmptyEntries(b);
    if a != [] {
      TailSet(a);
      TailSet(b);
      assert a[0] in EntrySet(a) && b[0] in EntrySet(b);
      AscendingUnique(a[1..], b[1..]);
      assert a == [a[0]] + a[1..] && b == [b[0]] + b[1..];
    }
  }

  lemma SortKeepsValid(entries: seq<DataKeyEntry>)
    requires ValidEntries(entries)
    ensures ValidEntries(Sort(entries)) && Ascending(Sort(entries))
    ensures EntrySet(Sort(entries)) == EntrySet(entries)
  {
    SortAscending(entries);
    var sorted := Sort(entries);
    assert forall i | 0 <= i < |sorted| :: sorted[i] in sorted && sorted[i] in entries;
  }

  lemma SortTwice(entries: seq<DataKeyEntry>)
    requires ValidEntries(entries)
    ensures Sort(Sort(entries)) == Sort(entries)
  {
    SortKeepsValid(entries);
    SortKeepsValid(Sort(entries));
    AscendingUnique(Sort(Sort(entries)), Sort(entries));
  }

  function Sorted(k: VaultKeyring): VaultKeyring {
    k.(credentials := Sort(k.credentials), transactions := Sort(k.transactions))
  }

  function WireEntry(e: DataKeyEntry): Json {
    JObj([(Ascii("g"), JNum(e.generation)), (Ascii("k"), JStr(e.keyB64))])
  }

  function WireEntries(entries: seq<DataKeyEntry>): seq<Json> {
    seq(|entries|, i requires 0 <= i < |entries| => WireEntry(entries[i]))
  }

  function WireSecret(secret: Option<Utf16>): Json {
    if secret.None? then JNull else JStr(secret.value)
  }

  function Wire(k: VaultKeyring): Json {
    JObj([(Ascii("v"), JNum(k.version)),
          (Ascii("creds"), JArr(WireEntries(Sort(k.credentials)))),
          (Ascii("txns"), JArr(WireEntries(Sort(k.transactions)))),
          (Ascii("kem"), WireSecret(k.kemSecretB64)),
          (Ascii("sig"), WireSecret(k.sigSecretB64))])
  }

  /** encodeKeyring */
  function EncodeKeyring(k: VaultKeyring): Utf16 {
    Print(Wire(k))
  }

  /** The last field of that name, as JSON.parse keeps it; None when absent. */
  function Field(fields: seq<(Utf16, Json)>, name: Utf16): Option<Json> {
    if fields == [] then None
    else
      var later := Field(fields[1..], name);
      if later.None? && fields[0].0 == name then Some(fields[0].1) else later
  }

  function FieldOf(j: Json, name: Utf16): Option<Json> {
    if j.JObj? then Field(j.fields, name) else None
  }

  /** One item of decodeEntries, given the generations already seen. */
  function DecodeEntry(item: Json, seen: set<nat>): Result<DataKeyEntry, KeyringError> {
    match (FieldOf(item, Ascii("g")), FieldOf(item, Ascii("k")))
    case (Some(JNum(g)), k) =>
      if g < 1 then Failure(InvalidGeneration)
      else (match k
        case Some(JStr(s)) =>
          if s == [] then Failure(NoKeyMaterial)
          else if g in seen then Failure(DuplicateGeneration)
          else if !IsDataKey(s) then Failure(WrongKeyLength)
          else Success(DataKeyEntry(g, s))
        case _ => Failure(NoKeyMaterial))
    case _ => Failure(InvalidGeneration)
  }

  function DecodeItems(items: seq<Json>, seen: set<nat>): Result<seq<DataKeyEntry>, KeyringError> {
    if items == [] then Success([])
    else
      var first :- DecodeEntry(items[0], seen);
      var more :- DecodeItems(items[1..], seen + {first.generation});
      Success([first] + more)
  }

  function EntriesOf(raw: Option<Json>): Result<seq<DataKeyEntry>, KeyringError> {
    match raw
    case Some(JArr(items)) =>
      if items == [] then Failure(MissingEntries)
      else if |items| > MAX_GENERATIONS then Failure(TooManyGenerations)
      else DecodeItems(items, {})
    case _ => Failure(MissingEntries)
  }

  /** decodeEntries: maps the items while recording the generations seen. */
  method DecodeEntries(raw: Option<Json>) returns (r: Result<seq<DataKeyEntry>, KeyringError>)
    ensures r == EntriesOf(raw)
    ensures r.Success? ==> ValidEntries(r.value)
  {
    if raw.None? || !raw.value.JArr? || raw.value.items == [] {
      return Failure(MissingEntries);
    }
    var items := raw.value.items;
    if |items| > MAX_GENERATIONS {
      return Failure(TooManyGenerations);
    }
    var seen: set<nat>, entries: seq<DataKeyEntry> := {}, [];
    PrefixedEnds(items, seen);
    hide DecodeEntry, IsDataKey, ValidEntries;
    for i := 0 to |items|
      invariant |entries| == i
      invariant seen == Generations(entries)
      invariant i > 0 ==> ValidEntries(entries)
      invariant DecodeItems(items, {}) == Prefixed(entries, DecodeItems(items[i..], seen))
    {
      var entry := DecodeEntry(items[i], seen);
      DecodeStep(items, i, seen, entries);
      if entry.Failure? {
        return Failure(entry.error);
      }
      DecodedEntry(items[i], seen);
      AppendDecoded(entries, entry.value);
      seen := seen + {entry.value.generation};
      entries := entries + [entry.value];
    }
    assert items[|items|..] == [] && entries + [] == entries;
    r := Success(entries);
  }

  lemma DecodedEntry(item: Json, seen: set<nat>)
    ensures var r := DecodeEntry(item, seen);
            r.Success? ==> r.value.generation >= 1 && IsDataKey(r.value.keyB64) && r.value.generation !in seen
  {
  }

  lemma PrefixedEnds(items: seq<Json>, seen: set<nat>)
    ensures Prefixed([], DecodeItems(items[0..], seen)) == DecodeItems(items, seen)
  {
    assert items[0..] == items;
    var r := DecodeItems(items, seen);
    if r.Success? {
      assert [] + r.value == r.value;
    }
  }

  lemma DecodeStep(items: seq<Json>, i: nat, seen: set<nat>, entries: seq<DataKeyEntry>)
    requires i < |items|
    ensures var entry := DecodeEntry(items[i], seen);
            Prefixed(entries, DecodeItems(items[i..], seen)) ==
            if entry.Failure? then Failure(entry.error)
            else Prefixed(entries + [entry.value], DecodeItems(items[i + 1..], seen + {entry.value.generation}))
  {
    assert items[i..][1..] == items[i + 1..];
    var entry := DecodeEntry(items[i], seen);
    if entry.Success? {
      var rest := DecodeItems(items[i + 1..], seen + {entry.value.generation});
      if rest.Success? {
        assert entries + ([entry.value] + rest.value) == (entries + [entry.value]) + rest.value;
      }
    }
  }

  lemma AppendDecoded(entries: seq<DataKeyEntry>, e: DataKeyEntry)
    requires entries == [] || ValidEntries(entries)
    requires |entries| < MAX_GENERATIONS && e.generation >= 1 && IsDataKey(e.keyB64)
    requires e.generation !in Generations(entries)
    ensures ValidEntries(entries + [e])
    ensures Generations(entries + [e]) == Generations(entries) + {e.generation}
  {
    assert forall x | x in entries :: x.generation in Generations(entries);
    if entries != [] {
      SnocValid(entries, e);
    }
  }

  function Generations(entries: seq<DataKeyEntry>): set<nat> {
    set e | e in entries :: e.generation
  }

  function Prefixed(front: seq<DataKeyEntry>, rest: Result<seq<DataKeyEntry>, KeyringError>)
    : Result<seq<DataKeyEntry>, KeyringError>
  {
    match rest
    case Failure(e) => Failure(e)
    case Success(s) => Success(front + s)
  }

  function SecretOf(raw: Option<Json>): Result<Option<Utf16>, KeyringError> {
    match raw
    case None => Success(None)
    case Some(JNull) => Success(None)
    case Some(JStr(s)) => Success(Some(s))
    case _ => Failure(BadSecret)
  }

  function DecodeWire(j: Json): Result<VaultKeyring, KeyringError> {
    if !j.JObj? then Failure(NotAnObject)
    else if FieldOf(j, Ascii("v")) != Some(JNum(KEYRING_VERSION)) then Failure(UnsupportedVersion)
    else
      var kem :- SecretOf(FieldOf(j, Ascii("kem")));
      var sig :- SecretOf(FieldOf(j, Ascii("sig")));
      var credentials :- EntriesOf(FieldOf(j, Ascii("creds")));
      var transactions :- EntriesOf(FieldOf(j, Ascii("txns")));
      Success(VaultKeyring(KEYRING_VERSION, credentials, transactions, kem, sig))
  }

  /** The specification of decodeKeyring. */
  function Decoded(text: Utf16): Result<VaultKeyring, KeyringError> {
    match Parse(text)
    case None => Failure(NotAnObject)
    case Some(j) => DecodeWire(j)
  }

  /** decodeKeyring: whatever it returns is valid. */
  method DecodeKeyring(text: Utf16) returns (r: Result<VaultKeyring, KeyringError>)
    ensures r == Decoded(text)
    ensures r.Success? ==> Valid(r.value)
  {
    var parsed := Parse(text);
    if parsed.None? || !parsed.value.JObj? {
      return Failure(NotAnObject);
    }
    var wire := parsed.value;
    if FieldOf(wire, Ascii("v")) != Some(JNum(KEYRING_VERSION)) {
      return Failure(UnsupportedVersion);
    }
    var kem := SecretOf(FieldOf(wire, Ascii("kem")));
    if kem.Failure? {
      return Failure(kem.error);
    }
    var sig := SecretOf(FieldOf(wire, Ascii("sig")));
    if sig.Failure? {
      return Failure(sig.error);
    }
    var credentials := DecodeEntries(FieldOf(wire, Ascii("creds")));
    if credentials.Failure? {
      return Failure(credentials.error);
    }
    var transactions := DecodeEntries(FieldOf(wire, Ascii("txns")));
    if transactions.Failure? {
      return Failure(transactions.error);
    }
    r := Success(VaultKeyring(KEYRING_VERSION, credentials.value, transactions.value, kem.value, sig.value));
  }

  /** The item is an object that gives the entry's generation and key, among whatever else. */
  predicate ItemNames(item: Json, e: DataKeyEntry) {
    FieldOf(item, Ascii("g")) == Some(JNum(e.generation)) && FieldOf(item, Ascii("k")) == Some(JStr(e.keyB64))
  }

  predicate ItemsName(items: seq<Json>, entries: seq<DataKeyEntry>) {
    |items| == |entries| && forall i | 0 <= i < |items| :: ItemNames(items[i], entries[i])
  }

  lemma DecodeEntryIff(item: Json, seen: set<nat>, e: DataKeyEntry)
    ensures DecodeEntry(item, seen) == Success(e) <==>
              ItemNames(item, e) && e.generation >= 1 && e.generation !in seen && IsDataKey(e.keyB64)
  {
  }

  /** Why an item is refused: its generation first, then its key, a repetition, the length of the key. */
  lemma RefusedItem(item: Json, seen: set<nat>)
    ensures var g, k := FieldOf(item, Ascii("g")), FieldOf(item, Ascii("k"));
            var r := DecodeEntry(item, seen);
            && (r == Failure(InvalidGeneration) <==> !(exists n: nat :: n >= 1 && g == Some(JNum(n))))
            && (r == Failure(DuplicateGeneration) <==>
                  && (exists n: nat :: n >= 1 && n in seen && g == Some(JNum(n)))
                  && (exists s :: s != [] && k == Some(JStr(s))))
            && (r == Failure(NoKeyMaterial) <==>
                  && (exists n: nat :: n >= 1 && g == Some(JNum(n)))
                  && !(exists s :: s != [] && k == Some(JStr(s))))
  {
  }

  lemma {:induction false} DecodeItemsIff(items: seq<Json>, seen: set<nat>, entries: seq<DataKeyEntry>)
    ensures DecodeItems(items, seen) == Success(entries) <==>
              && ItemsName(items, entries) && DistinctGenerations(entries)
              && forall i | 0 <= i < |entries| ::
                   entries[i].generation >= 1 && IsDataKey(entries[i].keyB64) && entries[i].generation !in seen
  {
    hide DecodeEntry, IsDataKey, ItemNames;
    if items != [] && entries != [] {
      var e := entries[0];
      DecodeEntryIff(items[0], seen, e);
      DecodeItemsIff(items[1..], seen + {e.generation}, entries[1..]);
      assert entries == [e] + entries[1..];
      assert ItemsName(items, entries) <==> ItemNames(items[0], e) && ItemsName(items[1..], entries[1..]);
      assert DistinctGenerations(entries) <==>
        DistinctGenerations(entries[1..]) && forall x | x in entries[1..] :: x.generation != e.generation;
    }
  }

  /** A list of items decodes to these entries exactly when it names them in this order and they are valid. */
  lemma EntriesOfIff(raw: Option<Json>, entries: seq<DataKeyEntry>)
    ensures EntriesOf(raw) == Success(entries) <==>
              raw.Some? && raw.value.JArr? && ItemsName(raw.value.items, entries) && ValidEntries(entries)
  {
    hide DecodeItems, IsDataKey, ItemNames;
    if raw.Some? && raw.value.JArr? {
      DecodeItemsIff(raw.value.items, {}, entries);
    }
  }

  predicate SecretNamed(raw: Option<Json>, secret: Option<Utf16>) {
    if secret.Some? then raw == Some(JStr(secret.value)) else raw.None? || raw == Some(JNull)
  }

  /** A text decodes to exactly the valid keyring it names, entries in any order and other fields ignored. */
  lemma DecodedIff(text: Utf16, k: VaultKeyring)
    ensures Decoded(text) == Success(k) <==>
              && Valid(k)
              && Parse(text).Some? && var j := Parse(text).value;
              && FieldOf(j, Ascii("v")) == Some(JNum(k.version))
              && SecretNamed(FieldOf(j, Ascii("kem")), k.kemSecretB64)
              && SecretNamed(FieldOf(j, Ascii("sig")), k.sigSecretB64)
              && (exists creds :: FieldOf(j, Ascii("creds")) == Some(JArr(creds)) && ItemsName(creds, k.credentials))
              && (exists txns :: FieldOf(j, Ascii("txns")) == Some(JArr(txns)) && ItemsName(txns, k.transactions))
  {
    hide EntriesOf, ItemsName, ValidEntries, Parse;
    var parsed := Parse(text);
    if parsed.Some? {
      EntriesOfIff(FieldOf(parsed.value, Ascii("creds")), k.credentials);
      EntriesOfIff(FieldOf(parsed.value, Ascii("txns")), k.transactions);
    }
  }

  predicate DistinctNames(fields: seq<(Utf16, Json)>) {
    forall i, j | 0 <= i < j < |fields| :: fields[i].0 != fields[j].0
  }

  lemma {:induction false} FieldAbsent(fields: seq<(Utf16, Json)>, name: Utf16)
    requires forall i | 0 <= i < |fields| :: fields[i].0 != name
    ensures Field(fields, name) == None
  {
    if fields != [] {
      FieldAbsent(fields[1..], name);
    }
  }

  lemma {:induction false} FieldAt(fields: seq<(Utf16, Json)>, i: nat)
    requires DistinctNames(fields) && i < |fields|
    ensures Field(fields, fields[i].0) == Some(fields[i].1)
  {
    if i == 0 {
      FieldAbsent(fields[1..], fields[0].0);
    } else {
      FieldAt(fields[1..], i - 1);
    }
  }

  /** The names under which an entry is written. */
  lemma WireEntryFields(e: DataKeyEntry)
    ensures FieldOf(WireEntry(e), Ascii("g")) == Some(JNum(e.generation))
    ensures FieldOf(WireEntry(e), Ascii("k")) == Some(JStr(e.keyB64))
  {
    var fields := WireEntry(e).fields;
    assert Ascii("g")[0] == 103 && Ascii("k")[0] == 107;
    FieldAt(fields, 0);
    FieldAt(fields, 1);
  }

  lemma WireNamesDistinct(k: VaultKeyring)
    ensures DistinctNames(Wire(k).fields)
  {
    var fields := Wire(k).fields;
    assert fields[0].0[0] == 118 && fields[1].0[0] == 99 && fields[2].0[0] == 116;
    assert fields[3].0[0] == 107 && fields[4].0[0] == 115;
  }

  /** The names under which a keyring is written, its entries sorted. */
  lemma WireFields(k: VaultKeyring)
    ensures FieldOf(Wire(k), Ascii("v")) == Some(JNum(k.version))
    ensures FieldOf(Wire(k), Ascii("creds")) == Some(JArr(WireEntries(Sort(k.credentials))))
    ensures FieldOf(Wire(k), Ascii("txns")) == Some(JArr(WireEntries(Sort(k.transactions))))
    ensures FieldOf(Wire(k), Ascii("kem")) == Some(WireSecret(k.kemSecretB64))
    ensures FieldOf(Wire(k), Ascii("sig")) == Some(WireSecret(k.sigSecretB64))
  {
    WireNamesDistinct(k);
    var fields := Wire(k).fields;
    FieldAt(fields, 0);
    FieldAt(fields, 1);
    FieldAt(fields, 2);
    FieldAt(fields, 3);
    FieldAt(fields, 4);
  }

  lemma EntriesOfWire(entries: seq<DataKeyEntry>)
    requires ValidEntries(entries)
    ensures EntriesOf(Some(JArr(WireEntries(Sort(entries))))) == Success(Sort(entries))
    ensures ValidEntries(Sort(entries))
  {
    SortKeepsValid(entries);
    var sorted := Sort(entries);
    forall i | 0 <= i < |sorted|
      ensures ItemNames(WireEntries(sorted)[i], sorted[i])
    {
      WireEntryFields(sorted[i]);
    }
    EntriesOfIff(Some(JArr(WireEntries(sorted))), sorted);
  }

  lemma SecretOfWire(secret: Option<Utf16>)
    ensures SecretOf(Some(WireSecret(secret))) == Success(secret)
  {
  }

  /** Decoding what was encoded gives the keyring back, entries sorted by generation. */
  lemma DecodeEncode(k: VaultKeyring)
    requires Valid(k)
    ensures Decoded(EncodeKeyring(k)) == Success(Sorted(k))
    ensures Valid(Sorted(k))
  {
    ParsePrint(Wire(k));
    WireFields(k);
    SecretOfWire(k.kemSecretB64);
    SecretOfWire(k.sigSecretB64);
    EntriesOfWire(k.credentials);
    EntriesOfWire(k.transactions);
  }

  lemma EncodedWellFormed(k: VaultKeyring)
    ensures Utf8.WellFormed(EncodeKeyring(k))
  {
    PrintWellFormed(Wire(k));
  }

  /** The same sets of entries and the same secrets. */
  predicate SameContents(a: VaultKeyring, b: VaultKeyring) {
    && a.version == b.version
    && EntrySet(a.credentials) == EntrySet(b.credentials)
    && EntrySet(a.transactions) == EntrySet(b.transactions)
    && a.kemSecretB64 == b.kemSecretB64
    && a.sigSecretB64 == b.sigSecretB64
  }

  /** The encoding is a function of the contents alone, and an injective one. */
  lemma EncodingMeansContents(a: VaultKeyring, b: VaultKeyring)
    requires Valid(a) && Valid(b)
    ensures EncodeKeyring(a) == EncodeKeyring(b) <==> SameContents(a, b)
  {
    DecodeEncode(a);
    DecodeEncode(b);
    SortKeepsValid(a.credentials);
    SortKeepsValid(a.transactions);
    SortKeepsValid(b.credentials);
    SortKeepsValid(b.transactions);
    if SameContents(a, b) {
      AscendingUnique(Sort(a.credentials), Sort(b.credentials));
      AscendingUnique(Sort(a.transactions), Sort(b.transactions));
    }
  }

  lemma SameOption<T(!new)>(a: Option<T>, b: Option<T>)
    requires forall x :: a == Some(x) <==> b == Some(x)
    ensures a == b
  {
  }

  /** Lookups see contents only. */
  lemma SameContentsSameKeys(a: VaultKeyring, b: VaultKeyring, kind: DataKeyKind, generation: nat)
    requires Valid(a) && Valid(b) && SameContents(a, b)
    ensures DataKeyAt(a, kind, generation) == DataKeyAt(b, kind, generation)
    ensures LatestDataKey(a, kind) == LatestDataKey(b, kind)
  {
    var x, y := EntriesFor(a, kind), EntriesFor(b, kind);
    assert forall e :: e in x <==> e in EntrySet(x);
    assert forall e :: e in y <==> e in EntrySet(y);
    FindMeans(x, generation);
    FindMeans(y, generation);
    SameOption(Find(x, generation), Find(y, generation));
    BestIsGreatest(x);
    BestIsGreatest(y);
    FindMeans(x, Best(x).generation);
  }
}
