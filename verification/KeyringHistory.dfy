/** What stays true of a keyring over any sequence of the operations that change it. */
module KeyringHistory {
  import opened Wrappers
  import opened Text
  import opened Keyring
  import CoAdminKeyring

  /** Rewrap opens the stored blob and seals its contents again. */
  datatype Operation =
    | Add(kind: DataKeyKind, freshKey: Utf16)
    | SetPqcSecrets(kem: Option<Utf16>, sig: Option<Utf16>)
    | Rewrap

  predicate Allowed(op: Operation) {
    op.Add? ==> IsDataKey(op.freshKey)
  }

  predicate AllAllowed(ops: seq<Operation>) {
    forall i | 0 <= i < |ops| :: Allowed(ops[i])
  }

  /**
   * An operation that throws leaves the keyring the caller holds as it was. A
   * rewrap returns what the sealed text decodes to (Keyring.DecodeEncode).
   */
  function Perform(k: VaultKeyring, op: Operation): VaultKeyring {
    match op
    case Add(kind, freshKey) =>
      var r := AddDataKeyGeneration(k, kind, freshKey);
      if r.Success? then r.value else k
    case SetPqcSecrets(kem, sig) => WithPqcSecrets(k, kem, sig)
    case Rewrap => Sorted(k)
  }

  function PerformAll(k: VaultKeyring, ops: seq<Operation>): VaultKeyring
    decreases |ops|
  {
    if ops == [] then k else PerformAll(Perform(k, ops[0]), ops[1..])
  }

  /** The newest of count generations can rise until the list is full. */
  predicate CanFill(count: nat, newest: nat) {
    || count >= MAX_GENERATIONS
    || newest + MAX_GENERATIONS <= TWO_TO_THE_53 + count
    || (count == MAX_GENERATIONS - 1 && Rises(newest))
  }

  predicate EntriesHeadroom(entries: seq<DataKeyEntry>) {
    entries != [] && CanFill(|entries|, Best(entries).generation)
  }

  predicate Headroom(k: VaultKeyring) {
    EntriesHeadroom(k.credentials) && EntriesHeadroom(k.transactions)
  }

  lemma FreshKeyringHasHeadroom(credentialsKey: Utf16, transactionsKey: Utf16)
    requires IsDataKey(credentialsKey) && IsDataKey(transactionsKey)
    ensures var k := GenerateVaultKeyring(credentialsKey, transactionsKey); Valid(k) && Headroom(k)
  {
  }

  /** later finds every entry that earlier finds, and its newest entry is no older. */
  ghost predicate EntriesContinue(earlier: seq<DataKeyEntry>, later: seq<DataKeyEntry>) {
    && earlier != [] && later != []
    && (forall g: nat :: Find(earlier, g).Some? ==> Find(later, g) == Find(earlier, g))
    && Best(earlier).generation <= Best(later).generation
  }

  ghost predicate Continues(earlier: VaultKeyring, later: VaultKeyring) {
    && EntriesContinue(earlier.credentials, later.credentials)
    && EntriesContinue(earlier.transactions, later.transactions)
  }

  lemma RisingIncreases(g: nat)
    ensures Rises(g) <==> JsIncrement(g) > g
  {
  }

  lemma SnocContinues(entries: seq<DataKeyEntry>, e: DataKeyEntry)
    requires entries != [] && e.generation > Best(entries).generation
    ensures EntriesContinue(entries, entries + [e])
  {
    BestOfSnoc(entries, e);
    forall g: nat | Find(entries, g).Some?
      ensures Find(entries + [e], g) == Find(entries, g)
    {
      FindPrepend(entries, [e], g);
    }
  }

  lemma GrowContinues(entries: seq<DataKeyEntry>, freshKey: Utf16)
    requires ValidEntries(entries) && EntriesHeadroom(entries) && IsDataKey(freshKey)
    requires |entries| < MAX_GENERATIONS
    ensures var grown := entries + [DataKeyEntry(JsIncrement(Best(entries).generation), freshKey)];
            ValidEntries(grown) && EntriesHeadroom(grown) && EntriesContinue(entries, grown)
  {
    var added := DataKeyEntry(JsIncrement(Best(entries).generation), freshKey);
    BestIsGreatest(entries);
    SnocValid(entries, added);
    SnocContinues(entries, added);
    BestOfSnoc(entries, added);
  }

  lemma AddContinues(k: VaultKeyring, kind: DataKeyKind, freshKey: Utf16)
    requires Valid(k) && Headroom(k) && IsDataKey(freshKey)
    requires |EntriesFor(k, kind)| < MAX_GENERATIONS
    ensures var k' := AddDataKeyGeneration(k, kind, freshKey).value;
            Valid(k') && Headroom(k') && Continues(k, k')
  {
    var k' := AddDataKeyGeneration(k, kind, freshKey).value;
    if kind == Credentials {
      GrowContinues(k.credentials, freshKey);
      assert k'.transactions == k.transactions && k'.version == k.version;
      assert EntriesContinue(k.transactions, k'.transactions);
    } else {
      GrowContinues(k.transactions, freshKey);
      assert k'.credentials == k.credentials && k'.version == k.version;
      assert EntriesContinue(k.credentials, k'.credentials);
    }
  }

  lemma SortContinues(entries: seq<DataKeyEntry>)
    requires ValidEntries(entries)
    ensures ValidEntries(Sort(entries)) && |Sort(entries)| == |entries|
    ensures EntriesContinue(entries, Sort(entries)) && Best(Sort(entries)) == Best(entries)
  {
    SortKeepsValid(entries);
    SortAscending(entries);
    var sorted := Sort(entries);
    forall g: nat
      ensures Find(sorted, g) == Find(entries, g)
    {
      FindMeans(entries, g);
      FindMeans(sorted, g);
      SameOption(Find(entries, g), Find(sorted, g));
    }
    BestIsGreatest(entries);
    BestIsGreatest(sorted);
    FindMeans(entries, Best(entries).generation);
  }

  lemma PerformContinues(k: VaultKeyring, op: Operation)
    requires Valid(k) && Headroom(k) && Allowed(op)
    ensures var k' := Perform(k, op); Valid(k') && Headroom(k') && Continues(k, k')
  {
    match op
    case Add(kind, freshKey) =>
      if |EntriesFor(k, kind)| < MAX_GENERATIONS {
        AddContinues(k, kind, freshKey);
      }
    case SetPqcSecrets(_, _) =>
    case Rewrap =>
      SortContinues(k.credentials);
      SortContinues(k.transactions);
  }

  lemma ContinuesTransitive(a: VaultKeyring, b: VaultKeyring, c: VaultKeyring)
    requires Continues(a, b) && Continues(b, c)
    ensures Continues(a, c)
  {
  }

  lemma {:induction false} HistoryContinues(k: VaultKeyring, ops: seq<Operation>)
    requires Valid(k) && Headroom(k)
    requires AllAllowed(ops)
    ensures var k' := PerformAll(k, ops); Valid(k') && Headroom(k') && Continues(k, k')
    decreases |ops|
  {
    if ops != [] {
      PerformContinues(k, ops[0]);
      HistoryContinues(Perform(k, ops[0]), ops[1..]);
      ContinuesTransitive(k, Perform(k, ops[0]), PerformAll(k, ops));
    }
  }

  lemma PerformFirst(k: VaultKeyring, op: Operation, more: seq<Operation>)
    ensures PerformAll(k, [op] + more) == PerformAll(Perform(k, op), more)
  {
  }

  lemma StillCannotFill(count: nat, newest: nat)
    requires !CanFill(count, newest) && Rises(newest)
    ensures !CanFill(count + 1, JsIncrement(newest))
  {
  }

  lemma GrowsWithoutHeadroom(entries: seq<DataKeyEntry>, freshKey: Utf16)
    requires entries != [] && !EntriesHeadroom(entries) && Rises(Best(entries).generation)
    ensures !EntriesHeadroom(entries + [DataKeyEntry(JsIncrement(Best(entries).generation), freshKey)])
  {
    hide Rises, JsIncrement, CanFill, Best;
    var added := DataKeyEntry(JsIncrement(Best(entries).generation), freshKey);
    StillCannotFill(|entries|, Best(entries).generation);
    RisingIncreases(Best(entries).generation);
    BestOfSnoc(entries, added);
    assert |entries + [added]| == |entries| + 1;
  }

  /** Without headroom, adding generations until the list is full breaks the keyring. */
  lemma {:induction false} FillingBreaks(k: VaultKeyring, kind: DataKeyKind, freshKey: Utf16)
    returns (ops: seq<Operation>)
    requires Valid(k) && IsDataKey(freshKey) && !EntriesHeadroom(EntriesFor(k, kind))
    ensures AllAllowed(ops) && !Valid(PerformAll(k, ops))
    decreases MAX_GENERATIONS - |EntriesFor(k, kind)|
  {
    var add := Add(kind, freshKey);
    AddKeepsValid(k, kind, freshKey);
    if Rises(LatestDataKey(k, kind).value.generation) {
      GrowsWithoutHeadroom(EntriesFor(k, kind), freshKey);
      var more := FillingBreaks(Perform(k, add), kind, freshKey);
      PerformFirst(k, add, more);
      ops := [add] + more;
    } else {
      PerformFirst(k, add, []);
      ops := [add] + [];
    }
  }

  /** Headroom is exactly what lets every sequence of operations keep the keyring valid. */
  lemma HeadroomIsExact(k: VaultKeyring, freshKey: Utf16)
    requires Valid(k) && IsDataKey(freshKey)
    ensures Headroom(k) <==> forall ops | AllAllowed(ops) :: Valid(PerformAll(k, ops))
  {
    if Headroom(k) {
      forall ops | AllAllowed(ops)
        ensures Valid(PerformAll(k, ops))
      {
        HistoryContinues(k, ops);
      }
    } else {
      var kind := if EntriesHeadroom(k.credentials) then Transactions else Credentials;
      var ops := FillingBreaks(k, kind, freshKey);
    }
  }

  /** Over any sequence of operations every old key stays readable and the newest never gets older. */
  lemma KeysSurvive(k: VaultKeyring, ops: seq<Operation>, kind: DataKeyKind, g: nat)
    requires Valid(k) && Headroom(k)
    requires AllAllowed(ops)
    ensures var k' := PerformAll(k, ops);
            && Valid(k')
            && (DataKeyAt(k, kind, g).Success? ==> DataKeyAt(k', kind, g) == DataKeyAt(k, kind, g))
            && LatestDataKey(k, kind).Success? && LatestDataKey(k', kind).Success?
            && LatestDataKey(k, kind).value.generation <= LatestDataKey(k', kind).value.generation
  {
    HistoryContinues(k, ops);
  }

  /** A projection taken at any point agrees, on all it holds, with the owner's keyring at any later point. */
  lemma ProjectionAgrees(k: VaultKeyring, before: seq<Operation>, after: seq<Operation>, kind: DataKeyKind, g: nat)
    requires Valid(k) && Headroom(k)
    requires AllAllowed(before)
    requires AllAllowed(after)
    ensures var taken := PerformAll(k, before);
            var projection := CoAdminKeyring.Project(taken);
            && CoAdminKeyring.Valid(projection)
            && CoAdminKeyring.LatestCoAdminDataKey(projection, kind) == LatestDataKey(taken, kind)
            && CoAdminKeyring.CoAdminDataKeyAt(projection, kind, g) == DataKeyAt(taken, kind, g)
            && (CoAdminKeyring.CoAdminDataKeyAt(projection, kind, g).Success? ==>
                  DataKeyAt(PerformAll(taken, after), kind, g) == CoAdminKeyring.CoAdminDataKeyAt(projection, kind, g))
  {
    HistoryContinues(k, before);
    KeysSurvive(PerformAll(k, before), after, kind, g);
  }
}
