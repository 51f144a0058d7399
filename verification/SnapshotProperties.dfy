/** What the snapshot pipeline promises, for every request, supply, enumeration and lock list. */
module SnapshotProperties {
  import opened Wrappers
  import opened Bytes
  import opened SnapshotModel
  import opened SnapshotLedger
  import opened SnapshotSpec
  import opened Permutations

  // ---------------------------------------------------------------- order independence

  /** The same owners with the same sums. */
  ghost predicate SameLedger(a: seq<HolderEntry>, b: seq<HolderEntry>) {
    Owners(a) == Owners(b) && SameOwnerTotals(a, b)
  }

  lemma {:induction false} PermutedLedger(a: seq<HolderEntry>, b: seq<HolderEntry>)
    requires multiset(a) == multiset(b)
    ensures SameLedger(a, b)
    decreases |a|
  {
    if a == [] {
      assert |multiset(b)| == 0;
    } else {
      var j := SamePlace(a, b);
      var init, rest := a[..|a| - 1], b[..j] + b[j + 1..];
      PermutedLedger(init, rest);
      assert a == init + [b[j]];
      OwnersSnoc(init, b[j]);
      RestOwners(b, j);
      forall o: Bytes32 ensures OwnerTotal(a, o) == OwnerTotal(b, o) {
        RestOwnerTotal(b, j, o);
        OwnerTotalSnoc(init, b[j], o);
      }
    }
  }

  lemma RestOwnerTotal(b: seq<HolderEntry>, j: nat, o: Bytes32)
    requires j < |b|
    ensures OwnerTotal(b, o) ==
            OwnerTotal(b[..j] + b[j + 1..], o) + if b[j].owner == o then b[j].lpBalance else 0
  {
    var before, after := b[..j], b[j + 1..];
    assert b == (before + [b[j]]) + after;
    OwnerTotalConcat(before + [b[j]], after, o);
    OwnerTotalSnoc(before, b[j], o);
    OwnerTotalConcat(before, after, o);
  }

  lemma RestOwners(b: seq<HolderEntry>, j: nat)
    requires j < |b|
    ensures Owners(b) == Owners(b[..j] + b[j + 1..]) + {b[j].owner}
  {
    var rest := b[..j] + b[j + 1..];
    forall o | o in Owners(b) ensures o in Owners(rest) + {b[j].owner} {
      var i :| 0 <= i < |b| && b[i].owner == o;
      if i < j {
        assert rest[i].owner == o;
      } else if i > j {
        assert rest[i - 1].owner == o;
      }
    }
    forall o | o in Owners(rest) ensures o in Owners(b) {
      var i :| 0 <= i < |rest| && rest[i].owner == o;
      assert b[if i < j then i else i + 1].owner == o;
    }
  }

  lemma PermutedAccounts(a: seq<TokenAccount>, b: seq<TokenAccount>)
    requires multiset(a) == multiset(b)
    ensures multiset(Holdings(a)) == multiset(Holdings(b))
  {
    ImagesPermute((t: TokenAccount) => HolderEntry(t.owner, t.amount), a, b, Holdings(a), Holdings(b));
  }

  lemma PermutedLocks(a: seq<TokenLockRecord>, b: seq<TokenLockRecord>)
    requires multiset(a) == multiset(b)
    ensures multiset(LockHoldings(a)) == multiset(LockHoldings(b)) && |a| == |b|
  {
    assert |multiset(a)| == |multiset(b)|;
    ImagesPermute((t: TokenLockRecord) => HolderEntry(t.lockOwner, t.currentLockedAmount), a, b,
                  LockHoldings(a), LockHoldings(b));
  }

  lemma {:induction false} CandidateCount(s: seq<TokenAccount>, amount: nat, x: TokenAccount)
    ensures multiset(WithAmount(s, amount))[x] == if x.amount == amount then multiset(s)[x] else 0
  {
    if s != [] {
      CandidateCount(s[..|s| - 1], amount, x);
      assert s == s[..|s| - 1] + [s[|s| - 1]];
    }
  }

  lemma {:induction false} OverrideCount(s: seq<TokenAccount>, owners: seq<Bytes32>, x: TokenAccount)
    ensures multiset(OwnedByAny(s, owners))[x] == if x.owner in owners then multiset(s)[x] else 0
  {
    if s != [] {
      OverrideCount(s[..|s| - 1], owners, x);
      assert s == s[..|s| - 1] + [s[|s| - 1]];
    }
  }

  lemma CandidatesPermuted(a: seq<TokenAccount>, b: seq<TokenAccount>, amount: nat)
    requires multiset(a) == multiset(b)
    ensures multiset(WithAmount(a, amount)) == multiset(WithAmount(b, amount))
  {
    forall x: TokenAccount
      ensures multiset(WithAmount(a, amount))[x] == multiset(WithAmount(b, amount))[x]
    {
      CandidateCount(a, amount, x);
      CandidateCount(b, amount, x);
    }
  }

  lemma OverridesPermuted(a: seq<TokenAccount>, b: seq<TokenAccount>, owners: seq<Bytes32>)
    requires multiset(a) == multiset(b)
    ensures multiset(OwnedByAny(a, owners)) == multiset(OwnedByAny(b, owners))
  {
    forall x: TokenAccount
      ensures multiset(OwnedByAny(a, owners))[x] == multiset(OwnedByAny(b, owners))[x]
    {
      OverrideCount(a, owners, x);
      OverrideCount(b, owners, x);
    }
  }

  lemma EligiblePermuted(a: seq<TokenAccount>, b: seq<TokenAccount>, overrides: seq<Bytes32>)
    requires multiset(a) == multiset(b) && |a| == |b|
    ensures |Eligible(a, overrides)| == |Eligible(b, overrides)|
    ensures |Eligible(a, overrides)| == 1 ==> Eligible(a, overrides) == Eligible(b, overrides)
  {
    OverridesPermuted(a, b, overrides);
    SingletonsEqual(Eligible(a, overrides), Eligible(b, overrides));
  }

  lemma CustodyIsOrderIndependent(req: SnapshotRequest, a: seq<TokenAccount>, b: seq<TokenAccount>,
                                  lockOwners: set<Bytes32>, locked: U64)
    requires multiset(a) == multiset(b)
    ensures ResolveCustody(req, a, lockOwners, locked) == ResolveCustody(req, b, lockOwners, locked)
  {
    var ca, cb := WithAmount(a, locked), WithAmount(b, locked);
    CandidatesPermuted(a, b, locked);
    SingletonsEqual(ca, cb);
    EligiblePermuted(ca, cb, req.custodyOwnerOverrides);
  }

  lemma {:induction false} EntriesSame(hs: seq<HolderEntry>, hs': seq<HolderEntry>,
      ls: seq<HolderEntry>, ls': seq<HolderEntry>, sinks: seq<Bytes32>,
      custody: Option<CustodyResolution>, keys: seq<Bytes32>)
    requires SameLedger(hs, hs') && SameLedger(ls, ls')
    requires Settles(hs, ls, sinks, custody) && Settles(hs', ls', sinks, custody)
    ensures EntriesFor(hs, ls, sinks, custody, keys) == EntriesFor(hs', ls', sinks, custody, keys)
  {
    if keys != [] {
      EntriesSame(hs, hs', ls, ls', sinks, custody, keys[..|keys| - 1]);
    }
  }

  lemma LeafSetSame(hs: seq<HolderEntry>, hs': seq<HolderEntry>, ls: seq<HolderEntry>,
                    ls': seq<HolderEntry>, sinks: seq<Bytes32>, custody: Option<CustodyResolution>)
    requires SameLedger(hs, hs') && SameLedger(ls, ls')
    requires Settles(hs, ls, sinks, custody) && Settles(hs', ls', sinks, custody)
    ensures Entries(hs, ls, sinks, custody) == Entries(hs', ls', sinks, custody)
  {
    assert ClaimableOwners(hs, sinks, custody) == ClaimableOwners(hs', sinks, custody);
    EntriesSame(hs, hs', ls, ls', sinks, custody, SortedKeys(EntryOwners(hs, ls, sinks, custody)));
  }

  lemma {:induction false} LedgersSame(hs: seq<HolderEntry>, hs': seq<HolderEntry>,
                                       sinks: seq<Bytes32>, keys: seq<Bytes32>)
    requires SameLedger(hs, hs') && Total(hs) <= U64_MAX && Total(hs') <= U64_MAX
    ensures Exclusions(hs, sinks, keys) == Exclusions(hs', sinks, keys)
    ensures Attributions(hs, keys) == Attributions(hs', keys)
  {
    if keys != [] {
      LedgersSame(hs, hs', sinks, keys[..|keys| - 1]);
    }
  }

  lemma SinkTotalsSame(hs: seq<HolderEntry>, hs': seq<HolderEntry>, sinks: seq<Bytes32>)
    requires SameLedger(hs, hs')
    ensures SinkTotal(hs, sinks) == SinkTotal(hs', sinks)
  {
    forall o: Bytes32 ensures OwnerTotal(SinkHoldings(hs, sinks), o) ==
                              OwnerTotal(SinkHoldings(hs', sinks), o) {
      SinkOwnerTotal(hs, sinks, o);
      SinkOwnerTotal(hs', sinks, o);
    }
    OwnerTotalsFixTheTotal(SinkHoldings(hs, sinks), SinkHoldings(hs', sinks));
  }

  lemma CloseSame(req: SnapshotRequest, supply: U64, slot: U64, hs: seq<HolderEntry>,
                  hs': seq<HolderEntry>, ls: seq<HolderEntry>, ls': seq<HolderEntry>, records: nat,
                  custody: Option<CustodyResolution>)
    requires SameLedger(hs, hs') && SameLedger(ls, ls')
    requires Settles(hs, ls, req.sinkExclusions, custody) && Total(ls) <= U64_MAX && Total(hs) == supply
    requires Settles(hs', ls', req.sinkExclusions, custody) && Total(ls') <= U64_MAX && Total(hs') == supply
    ensures Close(req, supply, slot, hs, ls, records, custody) ==
            Close(req, supply, slot, hs', ls', records, custody)
  {
    var sinks := req.sinkExclusions;
    LeafSetSame(hs, hs', ls, ls', sinks, custody);
    LedgersSame(hs, hs', sinks, SortedKeys(Owners(hs)));
    LedgersSame(ls, ls', sinks, SortedKeys(Owners(ls)));
    SinkTotalsSame(hs, hs', sinks);
    OwnerTotalsFixTheTotal(ls, ls');
  }

  /** The determinism contract: the order in which accounts and lock records are served never
      changes the outcome, a snapshot or an error, custody choice and ledgers included. */
  lemma OrderIndependence(req: SnapshotRequest, supply: U64, slot: U64,
                          accounts: seq<TokenAccount>, accounts': seq<TokenAccount>,
                          locks: seq<TokenLockRecord>, locks': seq<TokenLockRecord>)
    requires multiset(accounts) == multiset(accounts') && multiset(locks) == multiset(locks')
    ensures SnapshotOf(req, supply, slot, accounts, locks) ==
            SnapshotOf(req, supply, slot, accounts', locks')
  {
    var hs, hs', ls, ls' := Holdings(accounts), Holdings(accounts'), LockHoldings(locks), LockHoldings(locks');
    PermutedAccounts(accounts, accounts');
    PermutedLocks(locks, locks');
    PermutedLedger(hs, hs');
    PermutedLedger(ls, ls');
    OwnerTotalsFixTheTotal(hs, hs');
    OwnerTotalsFixTheTotal(ls, ls');
    if Total(hs) == supply && Total(ls) <= U64_MAX {
      CustodyIsOrderIndependent(req, accounts, accounts', Owners(ls), Total(ls));
      var custody := ResolveCustody(req, accounts, Owners(ls), Total(ls));
      if custody.Ok? {
        CustodySettles(req, accounts, locks);
        CustodySettles(req, accounts', locks');
        CloseSame(req, supply, slot, hs, hs', ls, ls', |locks|, custody.value);
      }
    }
  }

  // ---------------------------------------------------------------- attribution and conservation

  /** A finished snapshot: canonical entries, each owner with exactly what it is owed, every token
      of supply accounted for. */
  lemma SnapshotIsExact(req: SnapshotRequest, supply: U64, slot: U64,
                        accounts: seq<TokenAccount>, locks: seq<TokenLockRecord>, owner: Bytes32)
    requires SnapshotOf(req, supply, slot, accounts, locks).Ok?
    ensures var s := SnapshotOf(req, supply, slot, accounts, locks).value;
            var hs, ls := Holdings(accounts), LockHoldings(locks);
            && Canonical(s.entries)
            && OwnerTotal(s.entries, owner) ==
               (if owner in req.sinkExclusions ||
                   (s.locked.custody.Some? && s.locked.custody.value.owner == owner)
                then 0 else OwnerTotal(hs, owner)) + OwnerTotal(ls, owner)
            && Total(s.entries) + SinkTotal(hs, req.sinkExclusions) == Total(hs) == supply
            && s.reconciliation ==
               Reconciliation(supply, Total(s.entries), SinkTotal(hs, req.sinkExclusions))
            && s.locked.totalLocked == Total(ls)
            && (s.locked.custody.Some? ==>
                  s.locked.custody.value.balance == Total(ls) ==
                  OwnerTotal(hs, s.locked.custody.value.owner))
  {
    var hs, ls := Holdings(accounts), LockHoldings(locks);
    CustodySettles(req, accounts, locks);
    var custody := ResolveCustody(req, accounts, Owners(ls), Total(ls)).value;
    var entries := Entries(hs, ls, req.sinkExclusions, custody);
    EntryIsBalance(hs, ls, req.sinkExclusions, custody, owner);
    Conservation(hs, ls, req.sinkExclusions, custody);
    ValidateEntriesIffCanonical(entries);
    CustodyHoldsTheLockedTotal(req, accounts, Owners(ls), Total(ls));
  }

  lemma CustodyHoldsTheLockedTotal(req: SnapshotRequest, accounts: seq<TokenAccount>,
                                   lockOwners: set<Bytes32>, locked: U64)
    requires ResolveCustody(req, accounts, lockOwners, locked).Ok?
    ensures var custody := ResolveCustody(req, accounts, lockOwners, locked).value;
            (custody.Some? <==> locked > 0) && (custody.Some? ==> custody.value.balance == locked)
  {
    if locked > 0 {
      var candidates := WithAmount(accounts, locked);
      var eligible := Eligible(candidates, req.custodyOwnerOverrides);
      InOwnedByAny(candidates, req.custodyOwnerOverrides, eligible[0]);
      InWithAmount(accounts, locked, eligible[0]);
    }
  }

  lemma EntryIffListed(hs: seq<HolderEntry>, ls: seq<HolderEntry>, sinks: seq<Bytes32>,
                       custody: Option<CustodyResolution>, owner: Bytes32)
    requires Settles(hs, ls, sinks, custody)
    ensures (exists i :: 0 <= i < |Entries(hs, ls, sinks, custody)| &&
                         Entries(hs, ls, sinks, custody)[i].owner == owner) <==>
            owner in EntryOwners(hs, ls, sinks, custody)
  {
    var keys := SortedKeys(EntryOwners(hs, ls, sinks, custody));
    var entries := Entries(hs, ls, sinks, custody);
    if owner in keys {
      var i :| 0 <= i < |keys| && keys[i] == owner;
      assert entries[i].owner == owner;
    }
  }

  /** A declared sink is in the leaf set exactly when some lock record names it as beneficial
      owner: attribution runs after, and regardless of, sink exclusion. */
  lemma SinkHasEntryIffLockOwner(req: SnapshotRequest, supply: U64, slot: U64,
                                 accounts: seq<TokenAccount>, locks: seq<TokenLockRecord>, sink: Bytes32)
    requires SnapshotOf(req, supply, slot, accounts, locks).Ok? && sink in req.sinkExclusions
    ensures var s := SnapshotOf(req, supply, slot, accounts, locks).value;
            (exists i :: 0 <= i < |s.entries| && s.entries[i].owner == sink) <==>
            (exists j :: 0 <= j < |locks| && locks[j].lockOwner == sink)
  {
    var hs, ls := Holdings(accounts), LockHoldings(locks);
    CustodySettles(req, accounts, locks);
    var custody := ResolveCustody(req, accounts, Owners(ls), Total(ls)).value;
    EntryIffListed(hs, ls, req.sinkExclusions, custody, sink);
    assert sink in Owners(ls) <==> exists j :: 0 <= j < |ls| && ls[j].owner == sink;
    assert forall j :: 0 <= j < |ls| ==> (ls[j].owner == sink <==> locks[j].lockOwner == sink);
  }

  // ---------------------------------------------------------------- exact failure map

  /** Some lock owner ends up with nothing: its locks are empty and it holds no claimable LP. */
  ghost predicate SomeLockOwnerEmpty(hs: seq<HolderEntry>, ls: seq<HolderEntry>, sinks: seq<Bytes32>,
                                     custody: Option<CustodyResolution>)
  {
    exists o :: o in Owners(ls) && Balance(hs, ls, sinks, custody, o) == 0
  }

  /** The custody owner holds more than what is locked. */
  predicate Overfull(hs: seq<HolderEntry>, ls: seq<HolderEntry>, custody: Option<CustodyResolution>) {
    custody.Some? && OwnerTotal(hs, custody.value.owner) > Total(ls)
  }

  lemma EntriesCanonicalIff(hs: seq<HolderEntry>, ls: seq<HolderEntry>, sinks: seq<Bytes32>,
                            custody: Option<CustodyResolution>)
    requires Settles(hs, ls, sinks, custody)
    ensures Entries(hs, ls, sinks, custody) == [] <==> EntryOwners(hs, ls, sinks, custody) == {}
    ensures Canonical(Entries(hs, ls, sinks, custody)) <==>
            EntryOwners(hs, ls, sinks, custody) != {} && !SomeLockOwnerEmpty(hs, ls, sinks, custody)
  {
    var owners := EntryOwners(hs, ls, sinks, custody);
    var entries, keys := Entries(hs, ls, sinks, custody), SortedKeys(owners);
    if keys != [] {
      assert keys[0] in owners;
    }
    if SomeLockOwnerEmpty(hs, ls, sinks, custody) {
      var o :| o in Owners(ls) && Balance(hs, ls, sinks, custody, o) == 0;
      assert o in keys;
      var i :| 0 <= i < |keys| && keys[i] == o;
      assert entries[i].lpBalance == 0;
    } else {
      forall i | 0 <= i < |entries| ensures entries[i].lpBalance > 0 {
        assert keys[i] in owners;
      }
    }
  }

  lemma ClosingIdentityIff(hs: seq<HolderEntry>, ls: seq<HolderEntry>, sinks: seq<Bytes32>,
                           custody: Option<CustodyResolution>)
    requires Settles(hs, ls, sinks, custody)
    ensures Total(Entries(hs, ls, sinks, custody)) + SinkTotal(hs, sinks) == Total(hs) <==>
            !Overfull(hs, ls, custody)
    ensures Overfull(hs, ls, custody) ==> EntryOwners(hs, ls, sinks, custody) != {} || Total(ls) == 0
  {
    Conservation(hs, ls, sinks, custody);
    NoLocksNoOwners(ls);
  }

  lemma ClosesIffCanonical(req: SnapshotRequest, supply: U64, slot: U64, hs: seq<HolderEntry>,
                           ls: seq<HolderEntry>, records: nat, custody: Option<CustodyResolution>)
    requires Settles(hs, ls, req.sinkExclusions, custody) && Total(ls) <= U64_MAX && Total(hs) == supply
    requires custody.Some? ==> Total(ls) > 0
    ensures var r := Close(req, supply, slot, hs, ls, records, custody);
            && (r.Err? && r.error.InvariantViolated? <==>
                  Overfull(hs, ls, custody) || SomeLockOwnerEmpty(hs, ls, req.sinkExclusions, custody))
            && (r == Err(EmptySnapshot) <==>
                  EntryOwners(hs, ls, req.sinkExclusions, custody) == {})
            && (r.Err? ==> r.error.InvariantViolated? || r.error == EmptySnapshot)
  {
    var sinks := req.sinkExclusions;
    var entries, sinkTotal := Entries(hs, ls, sinks, custody), SinkTotal(hs, sinks);
    EntriesCanonicalIff(hs, ls, sinks, custody);
    ClosingIdentityIff(hs, ls, sinks, custody);
    if Total(entries) + sinkTotal != Total(hs) {
      OverfullHasEntries(hs, ls, sinks, custody);
    } else {
      ValidateEntriesIffCanonical(entries);
    }
  }

  lemma OverfullHasEntries(hs: seq<HolderEntry>, ls: seq<HolderEntry>, sinks: seq<Bytes32>,
                           custody: Option<CustodyResolution>)
    requires Settles(hs, ls, sinks, custody) && Overfull(hs, ls, custody) && Total(ls) > 0
    ensures EntryOwners(hs, ls, sinks, custody) != {}
  {
    NoLocksNoOwners(ls);
  }

  lemma NoLocksNoOwners(ls: seq<HolderEntry>)
    ensures Total(ls) > 0 ==> Owners(ls) != {}
  {
    if ls != [] {
      assert ls[0].owner in Owners(ls);
    }
  }

  /** Once the supply gate has passed, `Overflow` comes from the lock records alone, and
      `InvariantViolated` arises exactly when the custody owner holds more than the locked total
      (it may have several token accounts) or some lock owner ends with a zero balance (a fully
      withdrawn lock of someone who holds nothing else). */
  lemma FailureMap(req: SnapshotRequest, supply: U64, slot: U64,
                   accounts: seq<TokenAccount>, locks: seq<TokenLockRecord>)
    requires Total(Holdings(accounts)) == supply
    ensures var r := SnapshotOf(req, supply, slot, accounts, locks);
            var hs, ls := Holdings(accounts), LockHoldings(locks);
            && (r == Err(Overflow) <==> Total(ls) > U64_MAX)
            && (Total(ls) <= U64_MAX ==>
                  var custody := ResolveCustody(req, accounts, Owners(ls), Total(ls));
                  && (custody.Err? ==> r == Err(custody.error))
                  && (custody.Ok? ==>
                        && (r.Err? && r.error.InvariantViolated? <==>
                              Overfull(hs, ls, custody.value) ||
                              SomeLockOwnerEmpty(hs, ls, req.sinkExclusions, custody.value))
                        && (r == Err(EmptySnapshot) <==>
                              EntryOwners(hs, ls, req.sinkExclusions, custody.value) == {})
                        && (r.Err? ==> r.error.InvariantViolated? || r.error == EmptySnapshot)))
  {
    var hs, ls := Holdings(accounts), LockHoldings(locks);
    if Total(ls) <= U64_MAX {
      var custody := ResolveCustody(req, accounts, Owners(ls), Total(ls));
      if custody.Ok? {
        CustodySettles(req, accounts, locks);
        CustodyHoldsTheLockedTotal(req, accounts, Owners(ls), Total(ls));
        ClosesIffCanonical(req, supply, slot, hs, ls, |locks|, custody.value);
      }
    }
  }
}
