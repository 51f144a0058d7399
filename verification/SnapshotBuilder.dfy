/** `SnapshotBuilder::build` (snapshotter/src/builder.rs), step by step as the source performs
    it: running totals with checked adds, per-owner maps iterated in ascending key order,
    ledgers appended to. A `BTreeMap` is a `map` iterated through `SortedKeys`. */
module SnapshotBuilder {
  import opened Wrappers
  import opened Bytes
  import opened SnapshotModel
  import opened SnapshotLedger
  import opened SnapshotSpec

  function CheckedAdd(a: nat, b: nat, max: nat): Result<nat, SnapshotError> {
    if a + b > max then Err(Overflow) else Ok(a + b)
  }

  function ToU64(value: nat): (r: Result<U64, SnapshotError>) {
    if value > U64_MAX then Err(Overflow) else Ok(value)
  }

  lemma {:induction false} PrefixTotals(hs: seq<HolderEntry>, i: nat, owner: Bytes32)
    requires i <= |hs|
    ensures Total(hs[..i]) <= Total(hs)
    ensures OwnerTotal(hs[..i], owner) <= OwnerTotal(hs, owner)
  {
    assert hs == hs[..i] + hs[i..];
    TotalConcat(hs[..i], hs[i..]);
    OwnerTotalConcat(hs[..i], hs[i..], owner);
  }

  /** Step 3: the running enumeration total. */
  method SumBalances(accounts: seq<TokenAccount>) returns (r: Result<nat, SnapshotError>)
    ensures r == if Total(Holdings(accounts)) > U128_MAX then Err(Overflow)
                 else Ok(Total(Holdings(accounts)))
  {
    ghost var hs := Holdings(accounts);
    var total: nat := 0;
    for i := 0 to |accounts|
      invariant total == Total(hs[..i]) && total <= U128_MAX
    {
      var sum := CheckedAdd(total, accounts[i].amount, U128_MAX);
      TotalSnoc(hs[..i], hs[i]);
      assert hs[..i + 1] == hs[..i] + [hs[i]];
      PrefixTotals(hs, i + 1, 0);
      if sum.Err? {
        return Err(sum.error);
      }
      total := sum.value;
    }
    assert hs[..|accounts|] == hs;
    r := Ok(total);
  }

  /** `entry(owner).or_insert(0)`. */
  function Amount(m: map<Bytes32, U64>, owner: Bytes32): nat {
    if owner in m then m[owner] else 0
  }

  /** What `entry(owner).or_insert(0)` followed by a checked add leaves in the map. */
  ghost predicate Tallies(m: map<Bytes32, U64>, hs: seq<HolderEntry>) {
    m.Keys == Owners(hs) && forall o :: o in m ==> m[o] == OwnerTotal(hs, o)
  }

  method AddTo(m: map<Bytes32, U64>, owner: Bytes32, amount: U64, ghost hs: seq<HolderEntry>)
      returns (r: Result<map<Bytes32, U64>, SnapshotError>)
    requires Tallies(m, hs)
    ensures r.Ok? ==> Tallies(r.value, hs + [HolderEntry(owner, amount)])
    ensures r.Err? ==> r.error == Overflow && OwnerTotal(hs, owner) + amount > U64_MAX
  {
    var e := HolderEntry(owner, amount);
    OwnersSnoc(hs, e);
    forall o: Bytes32 ensures OwnerTotal(hs + [e], o) ==
                              OwnerTotal(hs, o) + if owner == o then amount else 0 {
      OwnerTotalSnoc(hs, e, o);
    }
    if owner !in m {
      StrangerHasNothing(hs, owner);
    }
    var sum := CheckedAdd(Amount(m, owner), amount, U64_MAX);
    if sum.Err? {
      return Err(sum.error);
    }
    r := Ok(m[owner := sum.value]);
  }

  /** Step 4: per-owner aggregation. Below a `u64` grand total no checked add can fail. */
  method AggregateOwners(accounts: seq<TokenAccount>)
      returns (r: Result<map<Bytes32, U64>, SnapshotError>)
    ensures r.Ok? ==> Tallies(r.value, Holdings(accounts))
    ensures r.Err? ==> r.error == Overflow && Total(Holdings(accounts)) > U64_MAX
  {
    ghost var hs := Holdings(accounts);
    var perOwner: map<Bytes32, U64> := map[];
    for i := 0 to |accounts|
      invariant Tallies(perOwner, hs[..i])
    {
      assert hs[..i + 1] == hs[..i] + [hs[i]];
      OwnerTotalSnoc(hs[..i], hs[i], hs[i].owner);
      PrefixTotals(hs, i + 1, hs[i].owner);
      OwnerTotalAtMostTotal(hs, hs[i].owner);
      var added := AddTo(perOwner, accounts[i].owner, accounts[i].amount, hs[..i]);
      if added.Err? {
        return Err(added.error);
      }
      perOwner := added.value;
    }
    assert hs[..|accounts|] == hs;
    r := Ok(perOwner);
  }

  /** The unlocked balances that survive an exclusion pass. */
  ghost predicate Unlocked(m: map<Bytes32, U64>, hs: seq<HolderEntry>, sinks: seq<Bytes32>,
                           custody: Option<CustodyResolution>)
  {
    m.Keys == ClaimableOwners(hs, sinks, custody) && forall o :: o in m ==> m[o] == OwnerTotal(hs, o)
  }

  /** What is in sinks among the first owners of an ascending enumeration. */
  ghost function SinkSum(hs: seq<HolderEntry>, sinks: seq<Bytes32>, keys: seq<Bytes32>): nat {
    if keys == [] then 0
    else SinkSum(hs, sinks, keys[..|keys| - 1]) +
         if keys[|keys| - 1] in sinks then OwnerTotal(hs, keys[|keys| - 1]) else 0
  }

  function Listed(hs: seq<HolderEntry>, sinks: seq<Bytes32>, keys: seq<Bytes32>): seq<HolderEntry>
    requires Total(hs) <= U64_MAX
  {
    if keys == [] then []
    else
      var o := keys[|keys| - 1];
      OwnerTotalAtMostTotal(hs, o);
      Listed(hs, sinks, keys[..|keys| - 1]) +
      [HolderEntry(o, if o in sinks then OwnerTotal(hs, o) else 0)]
  }

  lemma {:induction false} ListedTotals(hs: seq<HolderEntry>, sinks: seq<Bytes32>, keys: seq<Bytes32>, o: Bytes32)
    requires Total(hs) <= U64_MAX && StrictlyAscending(keys)
    ensures Total(Listed(hs, sinks, keys)) == SinkSum(hs, sinks, keys)
    ensures OwnerTotal(Listed(hs, sinks, keys), o) ==
            if o in keys && o in sinks then OwnerTotal(hs, o) else 0
  {
    if keys != [] {
      var init, last := keys[..|keys| - 1], keys[|keys| - 1];
      assert keys == init + [last];
      ListedTotals(hs, sinks, init, o);
      OwnerTotalAtMostTotal(hs, last);
      var e := HolderEntry(last, if last in sinks then OwnerTotal(hs, last) else 0);
      TotalSnoc(Listed(hs, sinks, init), e);
      OwnerTotalSnoc(Listed(hs, sinks, init), e, o);
    }
  }

  /** Summed over all owners, the sink pass collects exactly the sink accounts' balances. */
  lemma SinkSumIsSinkTotal(hs: seq<HolderEntry>, sinks: seq<Bytes32>, keys: seq<Bytes32>)
    requires Total(hs) <= U64_MAX && Enumerates(keys, Owners(hs))
    ensures SinkSum(hs, sinks, keys) == SinkTotal(hs, sinks)
  {
    ListedTotals(hs, sinks, keys, 0);
    forall o: Bytes32 ensures OwnerTotal(Listed(hs, sinks, keys), o) ==
                              OwnerTotal(SinkHoldings(hs, sinks), o) {
      ListedTotals(hs, sinks, keys, o);
      SinkOwnerTotal(hs, sinks, o);
      if o !in keys {
        StrangerHasNothing(hs, o);
      }
    }
    OwnerTotalsFixTheTotal(Listed(hs, sinks, keys), SinkHoldings(hs, sinks));
  }

  lemma {:induction false} SinkSumPrefix(hs: seq<HolderEntry>, sinks: seq<Bytes32>, keys: seq<Bytes32>, i: nat)
    requires i <= |keys|
    ensures SinkSum(hs, sinks, keys[..i]) <= SinkSum(hs, sinks, keys)
    decreases |keys|
  {
    if i < |keys| {
      SinkSumPrefix(hs, sinks, keys[..|keys| - 1], i);
      assert keys[..|keys| - 1][..i] == keys[..i];
    } else {
      assert keys[..i] == keys;
    }
  }

  /** Step 5: zero balances and sinks leave for the exclusion ledger, in ascending owner order.
      The checked add of the sink total cannot fail. */
  method ExclusionPass(perOwner: map<Bytes32, U64>, sinks: seq<Bytes32>, ghost hs: seq<HolderEntry>)
      returns (claimable: map<Bytes32, U64>, exclusions: seq<ExcludedBalance>, sinkTotal: nat)
    requires Total(hs) <= U64_MAX && Tallies(perOwner, hs)
    ensures sinkTotal == SinkTotal(hs, sinks)
    ensures Unlocked(claimable, hs, sinks, None)
    ensures exclusions == Exclusions(hs, sinks, SortedKeys(Owners(hs)))
  {
    var keys := SortedKeys(perOwner.Keys);
    EnumerationIsUnique(keys, SortedKeys(Owners(hs)), Owners(hs));
    SinkSumIsSinkTotal(hs, sinks, keys);
    SinkOwnerTotal(hs, sinks, 0);
    claimable, exclusions, sinkTotal := map[], [], 0;
    for i := 0 to |keys|
      invariant sinkTotal == SinkSum(hs, sinks, keys[..i])
      invariant exclusions == Exclusions(hs, sinks, keys[..i])
      invariant UnlockedAmong(claimable, hs, sinks, keys[..i])
    {
      NextKeyIsNew(keys, i);
      SinkSumPrefix(hs, sinks, keys, i + 1);
      assert keys[i] in perOwner;
      claimable, exclusions, sinkTotal :=
        ExcludeOwner(keys[i], perOwner[keys[i]], sinks, claimable, exclusions, sinkTotal, hs, keys[..i]);
    }
    assert keys[..|keys|] == keys;
    UnlockedFromAll(claimable, hs, sinks, keys);
  }

  lemma UnlockedFromAll(m: map<Bytes32, U64>, hs: seq<HolderEntry>, sinks: seq<Bytes32>, keys: seq<Bytes32>)
    requires UnlockedAmong(m, hs, sinks, keys) && Enumerates(keys, Owners(hs))
    ensures Unlocked(m, hs, sinks, None)
  {
  }

  /** The claimable map after the pass has seen some of the owners. */
  ghost predicate UnlockedAmong(m: map<Bytes32, U64>, hs: seq<HolderEntry>, sinks: seq<Bytes32>,
                                seen: seq<Bytes32>)
  {
    && (forall o: Bytes32 :: o in m <==> o in seen && Claimable(hs, sinks, None, o) > 0)
    && (forall o :: o in m ==> m[o] == OwnerTotal(hs, o))
  }

  /** The body of the exclusion loop. */
  method ExcludeOwner(owner: Bytes32, amount: U64, sinks: seq<Bytes32>, claimable: map<Bytes32, U64>,
                      exclusions: seq<ExcludedBalance>, sum: nat,
                      ghost hs: seq<HolderEntry>, ghost seen: seq<Bytes32>)
      returns (claimable': map<Bytes32, U64>, exclusions': seq<ExcludedBalance>, sum': nat)
    requires Total(hs) <= U64_MAX && amount == OwnerTotal(hs, owner)
    requires UnlockedAmong(claimable, hs, sinks, seen)
    requires exclusions == Exclusions(hs, sinks, seen) && sum == SinkSum(hs, sinks, seen)
    requires SinkSum(hs, sinks, seen + [owner]) <= U128_MAX
    ensures UnlockedAmong(claimable', hs, sinks, seen + [owner])
    ensures exclusions' == Exclusions(hs, sinks, seen + [owner])
    ensures sum' == SinkSum(hs, sinks, seen + [owner])
  {
    claimable', exclusions', sum' := claimable, exclusions, sum;
    assert (seen + [owner])[..|seen|] == seen;
    if amount == 0 {
      exclusions' := exclusions + [ExcludedBalance(owner, 0, ZeroBalance)];
    } else if owner in sinks {
      var added := CheckedAdd(sum, amount, U128_MAX);
      assert added.Ok?;
      sum' := added.value;
      exclusions' := exclusions + [ExcludedBalance(owner, amount, ExplicitSink)];
    } else {
      claimable' := claimable[owner := amount];
    }
  }

  /** Step 6, first half: locked amounts per beneficial owner and in all. */
  method AggregateLocks(records: seq<TokenLockRecord>)
      returns (r: Result<(map<Bytes32, U64>, nat), SnapshotError>)
    ensures r.Ok? ==> Tallies(r.value.0, LockHoldings(records)) && r.value.1 == Total(LockHoldings(records))
    ensures r.Err? ==> r.error == Overflow && Total(LockHoldings(records)) > U64_MAX
  {
    ghost var ls := LockHoldings(records);
    var attributions: map<Bytes32, U64> := map[];
    var total: nat := 0;
    for i := 0 to |records|
      invariant Tallies(attributions, ls[..i]) && total == Total(ls[..i])
    {
      assert ls[..i + 1] == ls[..i] + [ls[i]];
      TotalSnoc(ls[..i], ls[i]);
      OwnerTotalSnoc(ls[..i], ls[i], ls[i].owner);
      PrefixTotals(ls, i + 1, ls[i].owner);
      OwnerTotalAtMostTotal(ls, ls[i].owner);
      var sum := CheckedAdd(total, records[i].currentLockedAmount, U128_MAX);
      if sum.Err? {
        return Err(sum.error);
      }
      total := sum.value;
      var added := AddTo(attributions, records[i].lockOwner, records[i].currentLockedAmount, ls[..i]);
      if added.Err? {
        return Err(added.error);
      }
      attributions := added.value;
    }
    assert ls[..|records|] == ls;
    r := Ok((attributions, total));
  }

  method FilterByAmount(accounts: seq<TokenAccount>, amount: nat) returns (r: seq<TokenAccount>)
    ensures r == WithAmount(accounts, amount)
  {
    r := [];
    for i := 0 to |accounts|
      invariant r == WithAmount(accounts[..i], amount)
    {
      assert accounts[..i + 1][..i] == accounts[..i];
      if accounts[i].amount == amount {
        r := r + [accounts[i]];
      }
    }
    assert accounts[..|accounts|] == accounts;
  }

  method FilterByOwner(accounts: seq<TokenAccount>, owners: seq<Bytes32>) returns (r: seq<TokenAccount>)
    ensures r == OwnedByAny(accounts, owners)
  {
    r := [];
    for i := 0 to |accounts|
      invariant r == OwnedByAny(accounts[..i], owners)
    {
      assert accounts[..i + 1][..i] == accounts[..i];
      if accounts[i].owner in owners {
        r := r + [accounts[i]];
      }
    }
    assert accounts[..|accounts|] == accounts;
  }

  /** Step 6, second half: pick the custody account and take its owner out of the claimable map. */
  method TakeCustody(req: SnapshotRequest, accounts: seq<TokenAccount>,
                     attributions: map<Bytes32, U64>, claimable: map<Bytes32, U64>, totalLocked: nat)
      returns (r: Result<(Option<CustodyResolution>, map<Bytes32, U64>), SnapshotError>)
    requires Unlocked(claimable, Holdings(accounts), req.sinkExclusions, None)
    requires totalLocked <= U64_MAX
    ensures r.Err? <==> ResolveCustody(req, accounts, attributions.Keys, totalLocked).Err?
    ensures r.Err? ==> r.error == ResolveCustody(req, accounts, attributions.Keys, totalLocked).error
    ensures r.Ok? ==> Ok(r.value.0) == ResolveCustody(req, accounts, attributions.Keys, totalLocked)
    ensures r.Ok? ==> Unlocked(r.value.1, Holdings(accounts), req.sinkExclusions, r.value.0)
  {
    if totalLocked == 0 {
      return Ok((None, claimable));
    }
    var candidates := FilterByAmount(accounts, totalLocked);
    var chosen: TokenAccount;
    if |candidates| == 1 {
      chosen := candidates[0];
    } else if |candidates| == 0 {
      return Err(CustodyNotFound(totalLocked));
    } else {
      var viaOverride := FilterByOwner(candidates, req.custodyOwnerOverrides);
      if |viaOverride| != 1 {
        return Err(CustodyAmbiguous(totalLocked, |candidates|));
      }
      chosen := viaOverride[0];
      InOwnedByAny(candidates, req.custodyOwnerOverrides, chosen);
    }
    CandidateBalance(accounts, totalLocked, chosen);
    if chosen.owner in attributions {
      return Err(LockOwnerIsCustody(chosen.owner));
    }
    if chosen.owner !in claimable {
      return Err(CustodyExcludedAsSink);
    }
    var custody := Some(CustodyResolution(chosen.address, chosen.owner, chosen.amount,
      if |candidates| == 1 then ExactBalanceMatch else ExplicitOverride));
    r := Ok((custody, claimable - {chosen.owner}));
  }

  lemma AttributionsSnoc(ls: seq<HolderEntry>, keys: seq<Bytes32>, owner: Bytes32)
    requires Total(ls) <= U64_MAX
    ensures OwnerTotal(ls, owner) <= U64_MAX
    ensures Attributions(ls, keys + [owner]) == Attributions(ls, keys) + [HolderEntry(owner, OwnerTotal(ls, owner))]
  {
    OwnerTotalAtMostTotal(ls, owner);
    assert (keys + [owner])[..|keys + [owner]| - 1] == keys;
  }

  /** The next key of an ascending list is not among those before it. */
  lemma NextKeyIsNew(keys: seq<Bytes32>, i: nat)
    requires StrictlyAscending(keys) && i < |keys|
    ensures keys[i] !in keys[..i] && keys[..i + 1] == keys[..i] + [keys[i]]
  {
  }

  /** The ascending report list of the attributions. */
  method ReportAttributions(attributions: map<Bytes32, U64>, ghost ls: seq<HolderEntry>)
      returns (report: seq<HolderEntry>)
    requires Total(ls) <= U64_MAX && Tallies(attributions, ls)
    ensures report == Attributions(ls, SortedKeys(Owners(ls)))
  {
    var keys := SortedKeys(attributions.Keys);
    report := [];
    for i := 0 to |keys|
      invariant report == Attributions(ls, keys[..i])
    {
      NextKeyIsNew(keys, i);
      assert keys[i] in attributions;
      AttributionsSnoc(ls, keys[..i], keys[i]);
      report := report + [HolderEntry(keys[i], attributions[keys[i]])];
    }
    assert keys[..|keys|] == keys;
  }

  /** Step 7: locked amounts join the unlocked ones. With a settled custody no add can fail. */
  method MergeAttributions(claimable: map<Bytes32, U64>, attributions: map<Bytes32, U64>,
                           sinks: seq<Bytes32>, ghost custody: Option<CustodyResolution>,
                           ghost hs: seq<HolderEntry>, ghost ls: seq<HolderEntry>)
      returns (merged: map<Bytes32, U64>)
    requires Settles(hs, ls, sinks, custody)
    requires Unlocked(claimable, hs, sinks, custody) && Tallies(attributions, ls)
    ensures merged.Keys == EntryOwners(hs, ls, sinks, custody)
    ensures forall o :: o in merged ==> merged[o] == Balance(hs, ls, sinks, custody, o)
  {
    merged := claimable;
    var keys := SortedKeys(attributions.Keys);
    for i := 0 to |keys|
      invariant MergedUpTo(merged, claimable, attributions, keys[..i])
    {
      NextKeyIsNew(keys, i);
      assert keys[i] in attributions;
      MergeFits(claimable, attributions, sinks, custody, hs, ls, keys[i]);
      merged := MergeOne(merged, keys[i], attributions, claimable, keys[..i]);
    }
    assert keys[..|keys|] == keys;
    MergedBalances(merged, claimable, attributions, keys, sinks, custody, hs, ls);
  }

  /** The claimable map after some of the attributions have been added in. */
  ghost predicate MergedUpTo(merged: map<Bytes32, U64>, claimable: map<Bytes32, U64>,
                             attributions: map<Bytes32, U64>, done: seq<Bytes32>)
  {
    && (forall o :: o in merged <==> o in claimable || o in done)
    && (forall o :: o in merged ==>
          merged[o] == Amount(claimable, o) + if o in done then Amount(attributions, o) else 0)
  }

  method MergeOne(merged: map<Bytes32, U64>, owner: Bytes32, attributions: map<Bytes32, U64>,
                  ghost claimable: map<Bytes32, U64>, ghost done: seq<Bytes32>)
      returns (merged': map<Bytes32, U64>)
    requires MergedUpTo(merged, claimable, attributions, done)
    requires owner in attributions && owner !in done
    requires Amount(claimable, owner) + attributions[owner] <= U64_MAX
    ensures MergedUpTo(merged', claimable, attributions, done + [owner])
  {
    var sum := CheckedAdd(Amount(merged, owner), attributions[owner], U64_MAX);
    assert sum.Ok?;
    merged' := merged[owner := sum.value];
  }

  lemma MergeFits(claimable: map<Bytes32, U64>, attributions: map<Bytes32, U64>, sinks: seq<Bytes32>,
                  custody: Option<CustodyResolution>, hs: seq<HolderEntry>, ls: seq<HolderEntry>,
                  owner: Bytes32)
    requires Settles(hs, ls, sinks, custody)
    requires Unlocked(claimable, hs, sinks, custody) && Tallies(attributions, ls)
    requires owner in attributions
    ensures Amount(claimable, owner) + attributions[owner] <= U64_MAX
  {
    BalanceFits(hs, ls, sinks, custody, owner);
    if owner !in claimable {
      UnclaimedIsZero(claimable, hs, sinks, custody, owner);
    }
  }

  lemma MergedBalances(merged: map<Bytes32, U64>, claimable: map<Bytes32, U64>,
                       attributions: map<Bytes32, U64>, keys: seq<Bytes32>, sinks: seq<Bytes32>,
                       custody: Option<CustodyResolution>, hs: seq<HolderEntry>, ls: seq<HolderEntry>)
    requires Unlocked(claimable, hs, sinks, custody) && Tallies(attributions, ls)
    requires Enumerates(keys, attributions.Keys)
    requires MergedUpTo(merged, claimable, attributions, keys)
    ensures merged.Keys == EntryOwners(hs, ls, sinks, custody)
    ensures forall o :: o in merged ==> merged[o] == Balance(hs, ls, sinks, custody, o)
  {
    forall o | o in merged ensures merged[o] == Balance(hs, ls, sinks, custody, o) {
      if o !in claimable {
        UnclaimedIsZero(claimable, hs, sinks, custody, o);
      }
      if o !in attributions {
        StrangerHasNothing(ls, o);
      }
    }
  }

  lemma UnclaimedIsZero(claimable: map<Bytes32, U64>, hs: seq<HolderEntry>, sinks: seq<Bytes32>,
                        custody: Option<CustodyResolution>, owner: Bytes32)
    requires Unlocked(claimable, hs, sinks, custody) && owner !in claimable
    ensures Claimable(hs, sinks, custody, owner) == 0
  {
    if owner !in Owners(hs) {
      StrangerHasNothing(hs, owner);
    }
  }

  /** Step 8: the leaf set in ascending owner order. */
  method ListEntries(merged: map<Bytes32, U64>, sinks: seq<Bytes32>,
                     ghost custody: Option<CustodyResolution>,
                     ghost hs: seq<HolderEntry>, ghost ls: seq<HolderEntry>)
      returns (entries: seq<HolderEntry>)
    requires Settles(hs, ls, sinks, custody)
    requires merged.Keys == EntryOwners(hs, ls, sinks, custody)
    requires forall o :: o in merged ==> merged[o] == Balance(hs, ls, sinks, custody, o)
    ensures entries == Entries(hs, ls, sinks, custody)
  {
    var keys := SortedKeys(merged.Keys);
    entries := [];
    for i := 0 to |keys|
      invariant entries == EntriesFor(hs, ls, sinks, custody, keys[..i])
    {
      NextKeyIsNew(keys, i);
      assert keys[i] in merged;
      EntriesAppend(hs, ls, sinks, custody, keys[..i], keys[i]);
      entries := entries + [HolderEntry(keys[i], merged[keys[i]])];
    }
    assert keys[..|keys|] == keys;
  }

  /** The whole pipeline. Its result is the snapshot (or the error) that the sums define; the
      checked adds asserted `Ok?` above are those that can never overflow once the supply gate
      has passed. */
  method Build(req: SnapshotRequest, supply: U64, slot: U64,
               accounts: seq<TokenAccount>, locks: seq<TokenLockRecord>)
      returns (r: Result<LpSnapshot, SnapshotError>)
    ensures r == SnapshotOf(req, supply, slot, accounts, locks)
  {
    ghost var hs, ls := Holdings(accounts), LockHoldings(locks);
    var enumerated := SumBalances(accounts);
    if enumerated.Err? {
      return Err(enumerated.error);
    }
    if enumerated.value != supply {
      var narrowed := ToU64(enumerated.value);
      if narrowed.Err? {
        return Err(narrowed.error);
      }
      return Err(SupplyMismatch(supply, narrowed.value));
    }
    var perOwner := AggregateOwners(accounts);
    assert perOwner.Ok?;
    var claimable, exclusions, sinkTotal := ExclusionPass(perOwner.value, req.sinkExclusions, hs);
    var aggregated := AggregateLocks(locks);
    if aggregated.Err? {
      return Err(aggregated.error);
    }
    var (attributions, totalLocked) := aggregated.value;
    if totalLocked > U64_MAX {
      return Err(Overflow);
    }
    var taken := TakeCustody(req, accounts, attributions, claimable, totalLocked);
    if taken.Err? {
      return Err(taken.error);
    }
    var (custody, unlocked) := taken.value;
    CustodySettles(req, accounts, locks);
    var report := ReportAttributions(attributions, ls);
    var merged := MergeAttributions(unlocked, attributions, req.sinkExclusions, custody, hs, ls);
    var entries := ListEntries(merged, req.sinkExclusions, custody, hs, ls);
    r := CloseLedger(req, supply, slot, entries, exclusions, report, |locks|, totalLocked, sinkTotal,
                     custody, hs, ls);
  }

  method CloseLedger(req: SnapshotRequest, supply: U64, slot: U64, entries: seq<HolderEntry>,
                     exclusions: seq<ExcludedBalance>, report: seq<HolderEntry>, records: nat,
                     totalLocked: U64, sinkTotal: nat, custody: Option<CustodyResolution>,
                     ghost hs: seq<HolderEntry>, ghost ls: seq<HolderEntry>)
      returns (r: Result<LpSnapshot, SnapshotError>)
    requires Settles(hs, ls, req.sinkExclusions, custody) && Total(hs) == supply
    requires entries == Entries(hs, ls, req.sinkExclusions, custody)
    requires exclusions == Exclusions(hs, req.sinkExclusions, SortedKeys(Owners(hs)))
    requires totalLocked == Total(ls) && report == Attributions(ls, SortedKeys(Owners(ls)))
    requires sinkTotal == SinkTotal(hs, req.sinkExclusions)
    ensures r == Close(req, supply, slot, hs, ls, records, custody)
  {
    EntriesTotalFits(hs, ls, req.sinkExclusions, custody);
    SinkOwnerTotal(hs, req.sinkExclusions, 0);
    var entriesTotal := SumEntries(entries);
    assert entriesTotal.Ok?;
    if entriesTotal.value + sinkTotal != supply {
      return Err(InvariantViolated(ClosingIdentity(entriesTotal.value, sinkTotal, supply)));
    }
    var validated := ValidateEntries(entries);
    if validated.Err? {
      return Err(validated.error);
    }
    r := Ok(LpSnapshot(req.poolAddress, req.ammProgramId, req.lpMint, slot, supply, entries, exclusions,
                       LockedReport(records, totalLocked, report, custody),
                       Reconciliation(supply, entriesTotal.value, sinkTotal)));
  }

  method SumEntries(entries: seq<HolderEntry>) returns (r: Result<nat, SnapshotError>)
    ensures r == if Total(entries) > U128_MAX then Err(Overflow) else Ok(Total(entries))
  {
    var total: nat := 0;
    for i := 0 to |entries|
      invariant total == Total(entries[..i]) && total <= U128_MAX
    {
      var sum := CheckedAdd(total, entries[i].lpBalance, U128_MAX);
      assert entries[..i + 1] == entries[..i] + [entries[i]];
      TotalSnoc(entries[..i], entries[i]);
      PrefixTotals(entries, i + 1, 0);
      if sum.Err? {
        return Err(sum.error);
      }
      total := sum.value;
    }
    assert entries[..|entries|] == entries;
    r := Ok(total);
  }
}
