/** The TypeScript snapshot pipeline (sdk/src/snapshot.ts, steps 3 to 6), and when it agrees with
    the Rust builder. */
module SdkSnapshot {
  import opened Wrappers
  import opened Bytes
  import opened SnapshotModel
  import opened SnapshotLedger
  import opened SnapshotSpec
  import opened SnapshotProperties
  import opened MerkleTree
  import opened SdkMerkle

  function NonSink(hs: seq<HolderEntry>, sinks: seq<Bytes32>): seq<HolderEntry> {
    if hs == [] then []
    else
      var last := hs[|hs| - 1];
      NonSink(hs[..|hs| - 1], sinks) + if last.owner in sinks then [] else [last]
  }

  lemma {:induction false} SinksAndOthers(hs: seq<HolderEntry>, sinks: seq<Bytes32>, owner: Bytes32)
    ensures Total(hs) == Total(NonSink(hs, sinks)) + SinkTotal(hs, sinks)
    ensures OwnerTotal(NonSink(hs, sinks), owner) == if owner in sinks then 0 else OwnerTotal(hs, owner)
  {
    if hs != [] {
      var init, last := hs[..|hs| - 1], hs[|hs| - 1];
      SinksAndOthers(init, sinks, owner);
      if last.owner in sinks {
        assert NonSink(hs, sinks) == NonSink(init, sinks);
        TotalSnoc(SinkHoldings(init, sinks), last);
      } else {
        assert SinkHoldings(hs, sinks) == SinkHoldings(init, sinks);
        TotalSnoc(NonSink(init, sinks), last);
        OwnerTotalSnoc(NonSink(init, sinks), last, owner);
      }
    }
  }

  /** The per-owner map: no zero balances, no sinks, unbounded sums. */
  ghost predicate ByOwner(m: map<Bytes32, nat>, ns: seq<HolderEntry>) {
    forall o: Bytes32 :: OwnerTotal(ns, o) == if o in m then m[o] else 0
  }

  ghost predicate Positive(m: map<Bytes32, nat>) {
    forall o :: o in m ==> m[o] > 0
  }

  lemma NonSinkPrefix(hs: seq<HolderEntry>, sinks: seq<Bytes32>, i: nat, o: Bytes32)
    requires i < |hs|
    ensures OwnerTotal(NonSink(hs[..i + 1], sinks), o) == OwnerTotal(NonSink(hs[..i], sinks), o) +
            if hs[i].owner !in sinks && hs[i].owner == o then hs[i].lpBalance else 0
  {
    assert hs[..i + 1][..i] == hs[..i];
    if hs[i].owner !in sinks {
      OwnerTotalSnoc(NonSink(hs[..i], sinks), hs[i], o);
    } else {
      assert NonSink(hs[..i + 1], sinks) == NonSink(hs[..i], sinks);
    }
  }

  method Aggregate(accounts: seq<TokenAccount>, sinks: seq<Bytes32>) returns (byOwner: map<Bytes32, nat>)
    ensures ByOwner(byOwner, NonSink(Holdings(accounts), sinks)) && Positive(byOwner)
  {
    ghost var hs := Holdings(accounts);
    byOwner := map[];
    for i := 0 to |accounts|
      invariant ByOwner(byOwner, NonSink(hs[..i], sinks)) && Positive(byOwner)
    {
      forall o: Bytes32 {
        NonSinkPrefix(hs, sinks, i, o);
      }
      var owner, amount := accounts[i].owner, accounts[i].amount;
      if amount != 0 && owner !in sinks {
        byOwner := byOwner[owner := (if owner in byOwner then byOwner[owner] else 0) + amount];
      }
    }
    assert hs[..|accounts|] == hs;
  }

  /** The map as a list in ascending key order, the order `holderPairs.sort` leaves it in. */
  function Pairs(m: map<Bytes32, nat>, keys: seq<Bytes32>): (r: seq<SdkEntry>)
    requires forall k :: k in keys ==> k in m
    ensures |r| == |keys|
    ensures forall i :: 0 <= i < |r| ==> r[i] == SdkEntry(keys[i], m[keys[i]])
  {
    if keys == [] then []
    else Pairs(m, keys[..|keys| - 1]) + [SdkEntry(keys[|keys| - 1], m[keys[|keys| - 1]])]
  }

  function SumPairs(pairs: seq<SdkEntry>): int {
    if pairs == [] then 0 else SumPairs(pairs[..|pairs| - 1]) + pairs[|pairs| - 1].lpBalance
  }

  /** What the SDK returns once it succeeds. */
  datatype SdkSnapshot = SdkSnapshot(holders: seq<HolderEntry>, tree: SnapshotMerkleTree)

  /** When the SDK pipeline succeeds, and with which holders: the completeness gate compares what
      is left after sinks with the supply. */
  ghost predicate SdkAccepts(supply: U64, hs: seq<HolderEntry>, sinks: seq<Bytes32>) {
    Total(NonSink(hs, sinks)) == supply && supply > 0
  }

  function SdkHolders(supply: U64, hs: seq<HolderEntry>, sinks: seq<Bytes32>): seq<HolderEntry>
    requires Total(NonSink(hs, sinks)) == supply
  {
    Entries(NonSink(hs, sinks), [], [], None)
  }

  /** The keys of the map are the owners with something unlocked. */
  lemma KeysAreClaimable(m: map<Bytes32, nat>, ns: seq<HolderEntry>)
    requires ByOwner(m, ns) && Positive(m)
    ensures m.Keys == EntryOwners(ns, [], [], None)
  {
    forall o: Bytes32 ensures o in m <==> o in EntryOwners(ns, [], [], None) {
      if o !in Owners(ns) {
        StrangerHasNothing(ns, o);
      }
    }
  }

  /** Listing an ascending set of owners: what is left of the ledger without them is the rest. */
  lemma {:induction false} PairsLedger(m: map<Bytes32, nat>, keys: seq<Bytes32>, ns: seq<HolderEntry>)
    requires ByOwner(m, ns) && StrictlyAscending(keys) && forall k :: k in keys ==> k in m
    ensures 0 <= SumPairs(Pairs(m, keys)) <= Total(ns)
    ensures (forall o: Bytes32 :: o in m ==> o in keys) ==> SumPairs(Pairs(m, keys)) == Total(ns)
    decreases |keys|
  {
    if keys == [] {
      if forall o: Bytes32 :: o in m ==> o in keys {
        forall o: Bytes32 ensures OwnerTotal(ns, o) == OwnerTotal([], o) {
          assert o !in m;
        }
        OwnerTotalsFixTheTotal(ns, []);
      }
    } else {
      var init, last := keys[..|keys| - 1], keys[|keys| - 1];
      assert keys == init + [last];
      var m', ns' := m - {last}, Without(ns, last);
      WithoutTotals(ns, last);
      forall o: Bytes32 ensures OwnerTotal(ns', o) == if o in m' then m'[o] else 0 {
        WithoutOwnerTotal(ns, last, o);
      }
      PairsLedger(m', init, ns');
      PairsIgnoreOthers(m, m', init);
    }
  }

  lemma {:induction false} PairsIgnoreOthers(m: map<Bytes32, nat>, m': map<Bytes32, nat>, keys: seq<Bytes32>)
    requires forall k :: k in keys ==> k in m && k in m' && m[k] == m'[k]
    ensures Pairs(m, keys) == Pairs(m', keys)
  {
    if keys != [] {
      PairsIgnoreOthers(m, m', keys[..|keys| - 1]);
    }
  }

  method SumValues(pairs: seq<SdkEntry>) returns (sum: int)
    ensures sum == SumPairs(pairs)
  {
    sum := 0;
    for i := 0 to |pairs|
      invariant sum == SumPairs(pairs[..i])
    {
      assert pairs[..i + 1][..i] == pairs[..i];
      sum := sum + pairs[i].lpBalance;
    }
    assert pairs[..|pairs|] == pairs;
  }

  method SnapshotLpHolders(h: Hash, accounts: seq<TokenAccount>, supply: U64, sinks: seq<Bytes32>)
      returns (r: Result<SdkSnapshot, SdkError>)
    ensures r.Ok? <==> SdkAccepts(supply, Holdings(accounts), sinks)
    ensures r.Ok? ==> r.value.holders == SdkHolders(supply, Holdings(accounts), sinks)
    ensures r.Ok? ==> Ok(r.value.tree) == TreeOf(h, r.value.holders)
  {
    ghost var ns := NonSink(Holdings(accounts), sinks);
    var byOwner := Aggregate(accounts, sinks);
    var keys := SortedKeys(byOwner.Keys);
    var pairs := Pairs(byOwner, keys);
    var entriesTotal := SumValues(pairs);
    PairsLedger(byOwner, keys, ns);
    if entriesTotal != supply {
      return Err(CompletenessGate);
    }
    KeysAreClaimable(byOwner, ns);
    ghost var holders := SdkHolders(supply, Holdings(accounts), sinks);
    PairsAreHolders(byOwner, ns, keys);
    assert pairs == AsSdk(holders);
    SdkTreeAgrees(h, holders);
    HoldersCanonical(byOwner, ns);
    var tree := SdkFromEntries(h, pairs);
    if tree.Err? {
      return Err(tree.error);
    }
    var listed := HoldersOf(pairs, supply, ns);
    r := Ok(SdkSnapshot(listed, tree.value));
  }

  lemma PairsAreHolders(m: map<Bytes32, nat>, ns: seq<HolderEntry>, keys: seq<Bytes32>)
    requires ByOwner(m, ns) && Positive(m) && Total(ns) <= U64_MAX && keys == SortedKeys(m.Keys)
    ensures Pairs(m, keys) == AsSdk(Entries(ns, [], [], None))
  {
    KeysAreClaimable(m, ns);
    var entries := Entries(ns, [], [], None);
    assert keys == SortedKeys(EntryOwners(ns, [], [], None));
    forall i | 0 <= i < |keys| ensures Pairs(m, keys)[i] == AsSdk(entries)[i] {
      assert keys[i] in m;
    }
  }

  /** The leaf set is canonical unless it is empty, and it is empty exactly when nothing is held. */
  lemma HoldersCanonical(m: map<Bytes32, nat>, ns: seq<HolderEntry>)
    requires ByOwner(m, ns) && Positive(m) && Total(ns) <= U64_MAX
    ensures Canonical(Entries(ns, [], [], None)) <==> Total(ns) > 0
    ensures SdkCanonical(AsSdk(Entries(ns, [], [], None))) <==> Total(ns) > 0
  {
    EntriesCanonicalIff(ns, [], [], None);
    Conservation(ns, [], [], None);
    SinkOwnerTotal(ns, [], 0);
    NoSinks(ns);
    var entries := Entries(ns, [], [], None);
    ValidateEntriesIffCanonical(entries);
    var h := Hash((_: seq<Byte>) => 0);
    SdkTreeAgrees(h, entries);
  }

  lemma {:induction false} NoSinks(hs: seq<HolderEntry>)
    ensures SinkHoldings(hs, []) == [] && NonSink(hs, []) == hs
  {
    if hs != [] {
      NoSinks(hs[..|hs| - 1]);
    }
  }

  method HoldersOf(pairs: seq<SdkEntry>, supply: U64, ghost ns: seq<HolderEntry>)
      returns (listed: seq<HolderEntry>)
    requires Total(ns) == supply && pairs == AsSdk(Entries(ns, [], [], None))
    ensures listed == Entries(ns, [], [], None)
  {
    ghost var holders := Entries(ns, [], [], None);
    listed := [];
    for i := 0 to |pairs|
      invariant listed == holders[..i]
    {
      assert pairs[i] == SdkEntry(holders[i].owner, holders[i].lpBalance);
      listed := listed + [HolderEntry(pairs[i].owner, pairs[i].lpBalance)];
    }
  }

  // ---------------------------------------------------------------- agreement

  /** Without sinks and without lock records the two pipelines succeed on the same inputs, with
      the same holder sequence and the same tree. */
  lemma PipelinesAgree(h: Hash, req: SnapshotRequest, supply: U64, slot: U64, accounts: seq<TokenAccount>)
    requires req.sinkExclusions == []
    ensures SdkAccepts(supply, Holdings(accounts), []) <==> SnapshotOf(req, supply, slot, accounts, []).Ok?
    ensures SdkAccepts(supply, Holdings(accounts), []) ==>
              var holders := SdkHolders(supply, Holdings(accounts), []);
              var entries := SnapshotOf(req, supply, slot, accounts, []).value.entries;
              holders == entries && TreeOf(h, holders).Ok? && TreeOf(h, holders) == TreeOf(h, entries)
  {
    var hs := Holdings(accounts);
    NoSinks(hs);
    RustWithoutLocks(req, supply, slot, accounts);
    if SdkAccepts(supply, hs, []) {
      HoldersAreCanonical(supply, hs, []);
      ValidateEntriesIffCanonical(SdkHolders(supply, hs, []));
    }
  }

  lemma HoldersAreCanonical(supply: U64, hs: seq<HolderEntry>, sinks: seq<Bytes32>)
    requires SdkAccepts(supply, hs, sinks)
    ensures Canonical(SdkHolders(supply, hs, sinks))
  {
    var ns := NonSink(hs, sinks);
    EntriesCanonicalIff(ns, [], [], None);
    TotalZeroIffEmpty(ns, []);
    Conservation(ns, [], [], None);
    NoSinks(ns);
  }

  /** Without lock records the Rust builder succeeds exactly on complete enumerations that leave
      someone outside the sinks with a balance. */
  lemma RustWithoutLocks(req: SnapshotRequest, supply: U64, slot: U64, accounts: seq<TokenAccount>)
    ensures var hs := Holdings(accounts);
            && (SnapshotOf(req, supply, slot, accounts, []).Ok? <==>
                  Total(hs) == supply && Total(NonSink(hs, req.sinkExclusions)) > 0)
            && (SnapshotOf(req, supply, slot, accounts, []).Ok? ==>
                  SnapshotOf(req, supply, slot, accounts, []).value.entries ==
                  Entries(hs, [], req.sinkExclusions, None))
  {
    var hs := Holdings(accounts);
    assert LockHoldings([]) == [];
    if Total(hs) == supply {
      FailureMap(req, supply, slot, accounts, []);
      EntriesCanonicalIff(hs, [], req.sinkExclusions, None);
      Conservation(hs, [], req.sinkExclusions, None);
      SinksAndOthers(hs, req.sinkExclusions, 0);
      TotalZeroIffEmpty(hs, req.sinkExclusions);
    }
  }

  lemma TotalZeroIffEmpty(hs: seq<HolderEntry>, sinks: seq<Bytes32>)
    requires Total(hs) <= U64_MAX
    ensures EntryOwners(hs, [], sinks, None) == {} <==> Total(Entries(hs, [], sinks, None)) == 0
  {
    var entries := Entries(hs, [], sinks, None);
    EntriesCanonicalIff(hs, [], sinks, None);
    if entries != [] {
      assert Canonical(entries);
      assert entries[0].lpBalance > 0;
      MemberAtMostOwnerTotal(entries, 0);
      OwnerTotalAtMostTotal(entries, entries[0].owner);
    }
  }

  /** With sinks they do not agree. On a complete enumeration the SDK refuses whenever a sink holds
      anything, where the Rust builder goes on; and the SDK accepts enumerations that exceed the
      supply by exactly what sinks hold, which the Rust supply gate refuses. */
  lemma SinksDivideThePipelines(req: SnapshotRequest, supply: U64, slot: U64, accounts: seq<TokenAccount>)
    ensures var hs := Holdings(accounts);
            var rust := SnapshotOf(req, supply, slot, accounts, []).Ok?;
            var sdk := SdkAccepts(supply, hs, req.sinkExclusions);
            && (rust && !sdk <==>
                  Total(hs) == supply && 0 < SinkTotal(hs, req.sinkExclusions) < supply)
            && (sdk && !rust <==>
                  SinkTotal(hs, req.sinkExclusions) > 0 && supply > 0 &&
                  Total(hs) == supply + SinkTotal(hs, req.sinkExclusions))
  {
    RustWithoutLocks(req, supply, slot, accounts);
    SinksAndOthers(Holdings(accounts), req.sinkExclusions, 0);
  }

  /** With anything locked, two pipelines that both succeed list different holders: the custodian is
      an SDK holder and never a Rust one. */
  lemma LocksDivideThePipelines(req: SnapshotRequest, supply: U64, slot: U64, accounts: seq<TokenAccount>,
                                locks: seq<TokenLockRecord>)
    requires SnapshotOf(req, supply, slot, accounts, locks).Ok? && Total(LockHoldings(locks)) > 0
    requires SdkAccepts(supply, Holdings(accounts), req.sinkExclusions)
    ensures var s := SnapshotOf(req, supply, slot, accounts, locks).value;
            var holders := SdkHolders(supply, Holdings(accounts), req.sinkExclusions);
            && s.locked.custody.Some?
            && OwnerTotal(holders, s.locked.custody.value.owner) == Total(LockHoldings(locks))
            && OwnerTotal(s.entries, s.locked.custody.value.owner) == 0
            && holders != s.entries
  {
    var hs, ls, sinks := Holdings(accounts), LockHoldings(locks), req.sinkExclusions;
    CustodySettles(req, accounts, locks);
    CustodyHoldsTheLockedTotal(req, accounts, Owners(ls), Total(ls));
    var custodian := ResolveCustody(req, accounts, Owners(ls), Total(ls)).value.value.owner;
    SnapshotIsExact(req, supply, slot, accounts, locks, custodian);
    StrangerHasNothing(ls, custodian);
    SinksAndOthers(hs, sinks, custodian);
    EntryIsBalance(NonSink(hs, sinks), [], [], None, custodian);
  }

  /** Where the Rust builder succeeds, the SDK succeeds with the same holders exactly when no sink holds
      anything and nothing is locked. */
  lemma SameHoldersIff(req: SnapshotRequest, supply: U64, slot: U64, accounts: seq<TokenAccount>,
                       locks: seq<TokenLockRecord>)
    requires SnapshotOf(req, supply, slot, accounts, locks).Ok?
    ensures var hs, sinks := Holdings(accounts), req.sinkExclusions;
            SdkAccepts(supply, hs, sinks) &&
            SdkHolders(supply, hs, sinks) == SnapshotOf(req, supply, slot, accounts, locks).value.entries <==>
            SinkTotal(hs, sinks) == 0 && Total(LockHoldings(locks)) == 0
  {
    var hs, sinks := Holdings(accounts), req.sinkExclusions;
    SinksAndOthers(hs, sinks, 0);
    SnapshotIsExact(req, supply, slot, accounts, locks, 0);
    if SinkTotal(hs, sinks) == 0 && Total(LockHoldings(locks)) == 0 {
      SupplyIsPositive(req, supply, slot, accounts, locks);
      UnlockedHoldersSame(req, supply, slot, accounts, locks);
    } else if SdkAccepts(supply, hs, sinks) {
      LocksDivideThePipelines(req, supply, slot, accounts, locks);
    }
  }

  lemma SupplyIsPositive(req: SnapshotRequest, supply: U64, slot: U64, accounts: seq<TokenAccount>,
                         locks: seq<TokenLockRecord>)
    requires SnapshotOf(req, supply, slot, accounts, locks).Ok?
    ensures supply > 0
  {
    SnapshotIsExact(req, supply, slot, accounts, locks, 0);
    var entries := SnapshotOf(req, supply, slot, accounts, locks).value.entries;
    MemberAtMostOwnerTotal(entries, 0);
    OwnerTotalAtMostTotal(entries, entries[0].owner);
  }

  lemma SdkTotal(supply: U64, hs: seq<HolderEntry>, sinks: seq<Bytes32>, owner: Bytes32)
    requires Total(NonSink(hs, sinks)) == supply
    ensures OwnerTotal(SdkHolders(supply, hs, sinks), owner) == if owner in sinks then 0 else OwnerTotal(hs, owner)
  {
    SinksAndOthers(hs, sinks, owner);
    EntryIsBalance(NonSink(hs, sinks), [], [], None, owner);
  }

  lemma RustTotalUnlocked(req: SnapshotRequest, supply: U64, slot: U64, accounts: seq<TokenAccount>,
                          locks: seq<TokenLockRecord>, owner: Bytes32)
    requires SnapshotOf(req, supply, slot, accounts, locks).Ok? && Total(LockHoldings(locks)) == 0
    ensures OwnerTotal(SnapshotOf(req, supply, slot, accounts, locks).value.entries, owner) ==
            if owner in req.sinkExclusions then 0 else OwnerTotal(Holdings(accounts), owner)
  {
    var ls := LockHoldings(locks);
    CustodyHoldsTheLockedTotal(req, accounts, Owners(ls), Total(ls));
    SnapshotIsExact(req, supply, slot, accounts, locks, owner);
    OwnerTotalAtMostTotal(ls, owner);
  }

  lemma UnlockedHoldersSame(req: SnapshotRequest, supply: U64, slot: U64, accounts: seq<TokenAccount>,
                            locks: seq<TokenLockRecord>)
    requires SnapshotOf(req, supply, slot, accounts, locks).Ok? && Total(LockHoldings(locks)) == 0
    requires SdkAccepts(supply, Holdings(accounts), req.sinkExclusions)
    ensures SdkHolders(supply, Holdings(accounts), req.sinkExclusions) ==
            SnapshotOf(req, supply, slot, accounts, locks).value.entries
  {
    var hs, sinks := Holdings(accounts), req.sinkExclusions;
    var holders := SdkHolders(supply, hs, sinks);
    var entries := SnapshotOf(req, supply, slot, accounts, locks).value.entries;
    SnapshotIsExact(req, supply, slot, accounts, locks, 0);
    HoldersAreCanonical(supply, hs, sinks);
    forall o: Bytes32 ensures OwnerTotal(holders, o) == OwnerTotal(entries, o) {
      RustTotalUnlocked(req, supply, slot, accounts, locks, o);
      SdkTotal(supply, hs, sinks, o);
    }
    LedgersAreTheirTotals(holders, entries);
  }
}
