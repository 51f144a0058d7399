/** What the snapshot builder computes, stated over per-owner sums and ascending owner
    enumerations instead of the running totals and maps it is computed with. */
module SnapshotSpec {
  import opened Wrappers
  import opened Bytes
  import opened SnapshotModel
  import opened SnapshotLedger

  function Holdings(accounts: seq<TokenAccount>): (hs: seq<HolderEntry>)
    ensures |hs| == |accounts|
    ensures forall i :: 0 <= i < |hs| ==> hs[i] == HolderEntry(accounts[i].owner, accounts[i].amount)
  {
    seq(|accounts|, i requires 0 <= i < |accounts| =>
      HolderEntry(accounts[i].owner, accounts[i].amount))
  }

  function LockHoldings(locks: seq<TokenLockRecord>): (hs: seq<HolderEntry>)
    ensures |hs| == |locks|
    ensures forall i :: 0 <= i < |hs| ==>
              hs[i] == HolderEntry(locks[i].lockOwner, locks[i].currentLockedAmount)
  {
    seq(|locks|, i requires 0 <= i < |locks| =>
      HolderEntry(locks[i].lockOwner, locks[i].currentLockedAmount))
  }

  // ---------------------------------------------------------------- custody

  function WithAmount(accounts: seq<TokenAccount>, amount: nat): seq<TokenAccount> {
    if accounts == [] then []
    else
      var last := accounts[|accounts| - 1];
      WithAmount(accounts[..|accounts| - 1], amount) + if last.amount == amount then [last] else []
  }

  function OwnedByAny(accounts: seq<TokenAccount>, owners: seq<Bytes32>): seq<TokenAccount> {
    if accounts == [] then []
    else
      var last := accounts[|accounts| - 1];
      OwnedByAny(accounts[..|accounts| - 1], owners) + if last.owner in owners then [last] else []
  }

  /** The candidates that can be chosen: a lone one, or those an override names. */
  function Eligible(candidates: seq<TokenAccount>, overrides: seq<Bytes32>): seq<TokenAccount> {
    if |candidates| == 1 then candidates else OwnedByAny(candidates, overrides)
  }

  /** The account that holds the locked LP: the only one whose balance is the locked total, or the
      only such one whose owner is an override. */
  function ResolveCustody(req: SnapshotRequest, accounts: seq<TokenAccount>,
                          lockOwners: set<Bytes32>, totalLocked: U64)
      : Result<Option<CustodyResolution>, SnapshotError>
  {
    if totalLocked == 0 then Ok(None)
    else
      var candidates := WithAmount(accounts, totalLocked);
      var eligible := Eligible(candidates, req.custodyOwnerOverrides);
      if |candidates| == 0 then Err(CustodyNotFound(totalLocked))
      else if |eligible| != 1 then Err(CustodyAmbiguous(totalLocked, |candidates|))
      else
        var chosen := eligible[0];
        if chosen.owner in lockOwners then Err(LockOwnerIsCustody(chosen.owner))
        else if chosen.owner in req.sinkExclusions then Err(CustodyExcludedAsSink)
        else Ok(Some(CustodyResolution(chosen.address, chosen.owner, chosen.amount,
                  if |candidates| == 1 then ExactBalanceMatch else ExplicitOverride)))
  }

  // ---------------------------------------------------------------- attribution

  /** What an owner holds unlocked and may claim: nothing for a sink or for the custody owner. */
  function Claimable(hs: seq<HolderEntry>, sinks: seq<Bytes32>,
                     custody: Option<CustodyResolution>, owner: Bytes32): nat
  {
    if owner in sinks || (custody.Some? && custody.value.owner == owner) then 0
    else OwnerTotal(hs, owner)
  }

  /** An owner's entry: its claimable unlocked total plus everything locked for it. */
  function Balance(hs: seq<HolderEntry>, ls: seq<HolderEntry>, sinks: seq<Bytes32>,
                   custody: Option<CustodyResolution>, owner: Bytes32): nat
  {
    Claimable(hs, sinks, custody, owner) + OwnerTotal(ls, owner)
  }

  function ClaimableOwners(hs: seq<HolderEntry>, sinks: seq<Bytes32>,
                           custody: Option<CustodyResolution>): set<Bytes32>
  {
    set o | o in Owners(hs) && Claimable(hs, sinks, custody, o) > 0
  }

  function EntryOwners(hs: seq<HolderEntry>, ls: seq<HolderEntry>, sinks: seq<Bytes32>,
                       custody: Option<CustodyResolution>): set<Bytes32>
  {
    ClaimableOwners(hs, sinks, custody) + Owners(ls)
  }

  /** What a resolved custody guarantees: its owner is neither a sink nor a lock owner and holds
      at least everything that is locked; without one, nothing is locked. */
  predicate Settles(hs: seq<HolderEntry>, ls: seq<HolderEntry>, sinks: seq<Bytes32>,
                    custody: Option<CustodyResolution>)
  {
    && Total(hs) <= U64_MAX
    && match custody
       case None => Total(ls) == 0
       case Some(c) =>
         c.owner !in sinks && c.owner !in Owners(ls) && Total(ls) <= OwnerTotal(hs, c.owner)
  }

  lemma BalanceFits(hs: seq<HolderEntry>, ls: seq<HolderEntry>, sinks: seq<Bytes32>,
                    custody: Option<CustodyResolution>, owner: Bytes32)
    requires Settles(hs, ls, sinks, custody)
    ensures Balance(hs, ls, sinks, custody, owner) <= Total(hs)
  {
    OwnerTotalAtMostTotal(hs, owner);
    OwnerTotalAtMostTotal(ls, owner);
    if custody.Some? {
      if custody.value.owner == owner {
        StrangerHasNothing(ls, owner);
      } else {
        TwoOwnersAtMostTotal(hs, owner, custody.value.owner);
      }
    }
  }

  function Entries(hs: seq<HolderEntry>, ls: seq<HolderEntry>, sinks: seq<Bytes32>,
                   custody: Option<CustodyResolution>): (entries: seq<HolderEntry>)
    requires Settles(hs, ls, sinks, custody)
  {
    EntriesFor(hs, ls, sinks, custody, SortedKeys(EntryOwners(hs, ls, sinks, custody)))
  }

  function EntriesFor(hs: seq<HolderEntry>, ls: seq<HolderEntry>, sinks: seq<Bytes32>,
                      custody: Option<CustodyResolution>, keys: seq<Bytes32>)
      : (entries: seq<HolderEntry>)
    requires Settles(hs, ls, sinks, custody)
    ensures |entries| == |keys|
    ensures forall i :: 0 <= i < |keys| ==>
              entries[i].owner == keys[i] &&
              entries[i].lpBalance == Balance(hs, ls, sinks, custody, keys[i])
  {
    if keys == [] then []
    else
      var last := keys[|keys| - 1];
      BalanceFits(hs, ls, sinks, custody, last);
      EntriesFor(hs, ls, sinks, custody, keys[..|keys| - 1]) +
      [HolderEntry(last, Balance(hs, ls, sinks, custody, last))]
  }

  // ---------------------------------------------------------------- ledgers

  function SinkHoldings(hs: seq<HolderEntry>, sinks: seq<Bytes32>): seq<HolderEntry> {
    if hs == [] then []
    else
      var last := hs[|hs| - 1];
      SinkHoldings(hs[..|hs| - 1], sinks) + if last.owner in sinks then [last] else []
  }

  lemma {:induction false} SinkOwnerTotal(hs: seq<HolderEntry>, sinks: seq<Bytes32>, owner: Bytes32)
    ensures OwnerTotal(SinkHoldings(hs, sinks), owner) ==
            if owner in sinks then OwnerTotal(hs, owner) else 0
    ensures Total(SinkHoldings(hs, sinks)) <= Total(hs)
  {
    if hs != [] {
      var init, last := hs[..|hs| - 1], hs[|hs| - 1];
      SinkOwnerTotal(init, sinks, owner);
      if last.owner in sinks {
        OwnerTotalSnoc(SinkHoldings(init, sinks), last, owner);
        TotalSnoc(SinkHoldings(init, sinks), last);
      } else {
        assert SinkHoldings(hs, sinks) == SinkHoldings(init, sinks);
      }
    }
  }

  function SinkTotal(hs: seq<HolderEntry>, sinks: seq<Bytes32>): nat {
    Total(SinkHoldings(hs, sinks))
  }

  /** The exclusion ledger over an ascending list of owners. */
  function Exclusions(hs: seq<HolderEntry>, sinks: seq<Bytes32>, keys: seq<Bytes32>)
      : seq<ExcludedBalance>
    requires Total(hs) <= U64_MAX
  {
    if keys == [] then []
    else
      var o := keys[|keys| - 1];
      OwnerTotalAtMostTotal(hs, o);
      Exclusions(hs, sinks, keys[..|keys| - 1]) +
      if OwnerTotal(hs, o) == 0 then [ExcludedBalance(o, 0, ZeroBalance)]
      else if o in sinks then [ExcludedBalance(o, OwnerTotal(hs, o), ExplicitSink)]
      else []
  }

  /** Locked totals per beneficial owner, over an ascending list of owners. */
  function Attributions(ls: seq<HolderEntry>, keys: seq<Bytes32>): seq<HolderEntry>
    requires Total(ls) <= U64_MAX
  {
    if keys == [] then []
    else
      var o := keys[|keys| - 1];
      OwnerTotalAtMostTotal(ls, o);
      Attributions(ls, keys[..|keys| - 1]) + [HolderEntry(o, OwnerTotal(ls, o))]
  }

  // ---------------------------------------------------------------- conservation

  lemma {:induction false} EntriesOwnerTotal(
      hs: seq<HolderEntry>, ls: seq<HolderEntry>, sinks: seq<Bytes32>,
      custody: Option<CustodyResolution>, keys: seq<Bytes32>, owner: Bytes32)
    requires Settles(hs, ls, sinks, custody) && StrictlyAscending(keys)
    ensures OwnerTotal(EntriesFor(hs, ls, sinks, custody, keys), owner) ==
            if owner in keys then Balance(hs, ls, sinks, custody, owner) else 0
  {
    if keys != [] {
      var init, last := keys[..|keys| - 1], keys[|keys| - 1];
      assert keys == init + [last] && StrictlyAscending(init) && last !in init;
      EntriesOwnerTotal(hs, ls, sinks, custody, init, owner);
      EntriesForSnoc(hs, ls, sinks, custody, keys, owner);
    }
  }

  lemma EntriesAppend(hs: seq<HolderEntry>, ls: seq<HolderEntry>, sinks: seq<Bytes32>,
                      custody: Option<CustodyResolution>, keys: seq<Bytes32>, next: Bytes32)
    requires Settles(hs, ls, sinks, custody)
    ensures Balance(hs, ls, sinks, custody, next) <= U64_MAX
    ensures EntriesFor(hs, ls, sinks, custody, keys + [next]) ==
            EntriesFor(hs, ls, sinks, custody, keys) +
            [HolderEntry(next, Balance(hs, ls, sinks, custody, next))]
  {
    BalanceFits(hs, ls, sinks, custody, next);
    assert (keys + [next])[..|keys + [next]| - 1] == keys;
  }

  lemma EntriesForSnoc(hs: seq<HolderEntry>, ls: seq<HolderEntry>, sinks: seq<Bytes32>,
                       custody: Option<CustodyResolution>, keys: seq<Bytes32>, owner: Bytes32)
    requires Settles(hs, ls, sinks, custody) && keys != []
    ensures var last := keys[|keys| - 1];
            OwnerTotal(EntriesFor(hs, ls, sinks, custody, keys), owner) ==
            OwnerTotal(EntriesFor(hs, ls, sinks, custody, keys[..|keys| - 1]), owner) +
            if owner == last then Balance(hs, ls, sinks, custody, last) else 0
  {
    var init, last := keys[..|keys| - 1], keys[|keys| - 1];
    BalanceFits(hs, ls, sinks, custody, last);
    OwnerTotalSnoc(EntriesFor(hs, ls, sinks, custody, init),
                   HolderEntry(last, Balance(hs, ls, sinks, custody, last)), owner);
  }

  /** In the leaf set every owner, listed or not, has exactly its claimable unlocked total plus
      its locked total. */
  lemma EntryIsBalance(hs: seq<HolderEntry>, ls: seq<HolderEntry>, sinks: seq<Bytes32>,
                       custody: Option<CustodyResolution>, owner: Bytes32)
    requires Settles(hs, ls, sinks, custody)
    ensures OwnerTotal(Entries(hs, ls, sinks, custody), owner) ==
            Balance(hs, ls, sinks, custody, owner)
  {
    var owners := EntryOwners(hs, ls, sinks, custody);
    EntriesOwnerTotal(hs, ls, sinks, custody, SortedKeys(owners), owner);
    if owner !in owners {
      StrangerHasNothing(ls, owner);
      if owner !in Owners(hs) {
        StrangerHasNothing(hs, owner);
      }
    }
  }

  /** What the custody owner gives up: its whole unlocked total. */
  function Removed(hs: seq<HolderEntry>, custody: Option<CustodyResolution>): nat {
    if custody.Some? then OwnerTotal(hs, custody.value.owner) else 0
  }

  /** Nothing is created or lost: entries, sinks and what was taken from the custody owner are
      together what was enumerated plus what the lock records re-attribute. */
  lemma Conservation(hs: seq<HolderEntry>, ls: seq<HolderEntry>, sinks: seq<Bytes32>,
                     custody: Option<CustodyResolution>)
    requires Settles(hs, ls, sinks, custody)
    ensures Total(Entries(hs, ls, sinks, custody)) + SinkTotal(hs, sinks) + Removed(hs, custody) ==
            Total(hs) + Total(ls)
  {
    var entries, sunk := Entries(hs, ls, sinks, custody), SinkHoldings(hs, sinks);
    if custody.Some? {
      OwnerTotalAtMostTotal(hs, custody.value.owner);
    }
    var taken := if custody.Some? then [HolderEntry(custody.value.owner, Removed(hs, custody))] else [];
    var out, back := entries + sunk + taken, hs + ls;
    forall o: Bytes32 ensures OwnerTotal(out, o) == OwnerTotal(back, o) {
      EntryIsBalance(hs, ls, sinks, custody, o);
      SinkOwnerTotal(hs, sinks, o);
      OwnerTotalConcat(entries, sunk, o);
      OwnerTotalConcat(entries + sunk, taken, o);
      OwnerTotalConcat(hs, ls, o);
      TakenOwnerTotal(taken, o);
    }
    OwnerTotalsFixTheTotal(out, back);
    TotalConcat(entries, sunk);
    TotalConcat(entries + sunk, taken);
    TotalConcat(hs, ls);
  }

  lemma TakenOwnerTotal(taken: seq<HolderEntry>, o: Bytes32)
    requires |taken| <= 1
    ensures OwnerTotal(taken, o) == if taken != [] && taken[0].owner == o then taken[0].lpBalance else 0
  {
  }

  lemma EntriesTotalFits(hs: seq<HolderEntry>, ls: seq<HolderEntry>, sinks: seq<Bytes32>,
                         custody: Option<CustodyResolution>)
    requires Settles(hs, ls, sinks, custody)
    ensures Total(Entries(hs, ls, sinks, custody)) + SinkTotal(hs, sinks) <= Total(hs)
  {
    Conservation(hs, ls, sinks, custody);
  }

  // ---------------------------------------------------------------- the snapshot

  lemma {:induction false} CandidateBalance(accounts: seq<TokenAccount>, amount: nat, a: TokenAccount)
    requires a in WithAmount(accounts, amount)
    ensures a in accounts && a.amount == amount
    ensures a.owner in Owners(Holdings(accounts))
    ensures amount <= OwnerTotal(Holdings(accounts), a.owner)
  {
    InWithAmount(accounts, amount, a);
    var i :| 0 <= i < |accounts| && accounts[i] == a;
    MemberAtMostOwnerTotal(Holdings(accounts), i);
    assert Holdings(accounts)[i].owner == a.owner;
  }

  lemma {:induction false} InWithAmount(accounts: seq<TokenAccount>, amount: nat, a: TokenAccount)
    ensures a in WithAmount(accounts, amount) <==> a in accounts && a.amount == amount
  {
    if accounts != [] {
      InWithAmount(accounts[..|accounts| - 1], amount, a);
      assert accounts == accounts[..|accounts| - 1] + [accounts[|accounts| - 1]];
    }
  }

  lemma {:induction false} InOwnedByAny(accounts: seq<TokenAccount>, owners: seq<Bytes32>, a: TokenAccount)
    ensures a in OwnedByAny(accounts, owners) <==> a in accounts && a.owner in owners
  {
    if accounts != [] {
      InOwnedByAny(accounts[..|accounts| - 1], owners, a);
      assert accounts == accounts[..|accounts| - 1] + [accounts[|accounts| - 1]];
    }
  }

  lemma CustodySettles(req: SnapshotRequest, accounts: seq<TokenAccount>,
                       locks: seq<TokenLockRecord>)
    requires Total(Holdings(accounts)) <= U64_MAX
    requires Total(LockHoldings(locks)) <= U64_MAX
    requires ResolveCustody(req, accounts, Owners(LockHoldings(locks)), Total(LockHoldings(locks))).Ok?
    ensures Settles(Holdings(accounts), LockHoldings(locks), req.sinkExclusions,
              ResolveCustody(req, accounts, Owners(LockHoldings(locks)), Total(LockHoldings(locks))).value)
  {
    var locked := Total(LockHoldings(locks));
    if locked > 0 {
      var candidates := WithAmount(accounts, locked);
      var eligible := Eligible(candidates, req.custodyOwnerOverrides);
      InOwnedByAny(candidates, req.custodyOwnerOverrides, eligible[0]);
      CandidateBalance(accounts, locked, eligible[0]);
    }
  }

  function SnapshotOf(req: SnapshotRequest, supply: U64, slot: U64,
                      accounts: seq<TokenAccount>, locks: seq<TokenLockRecord>)
      : Result<LpSnapshot, SnapshotError>
  {
    var hs, ls := Holdings(accounts), LockHoldings(locks);
    if Total(hs) != supply then
      Err(if Total(hs) > U64_MAX then Overflow else SupplyMismatch(supply, Total(hs)))
    else if Total(ls) > U64_MAX then Err(Overflow)
    else
      match ResolveCustody(req, accounts, Owners(ls), Total(ls))
      case Err(e) => Err(e)
      case Ok(custody) =>
        CustodySettles(req, accounts, locks);
        Close(req, supply, slot, hs, ls, |locks|, custody)
  }

  /** The closing identity, the canonical-form check and the finished record. */
  function Close(req: SnapshotRequest, supply: U64, slot: U64, hs: seq<HolderEntry>,
                 ls: seq<HolderEntry>, records: nat, custody: Option<CustodyResolution>)
      : Result<LpSnapshot, SnapshotError>
    requires Settles(hs, ls, req.sinkExclusions, custody) && Total(ls) <= U64_MAX
    requires Total(hs) == supply
  {
    var entries := Entries(hs, ls, req.sinkExclusions, custody);
    var sinkTotal := SinkTotal(hs, req.sinkExclusions);
    SinkOwnerTotal(hs, req.sinkExclusions, 0);
    if Total(entries) + sinkTotal != Total(hs) then
      Err(InvariantViolated(ClosingIdentity(Total(entries), sinkTotal, Total(hs))))
    else if ValidateEntries(entries).Err? then Err(ValidateEntries(entries).error)
    else
      Ok(LpSnapshot(req.poolAddress, req.ammProgramId, req.lpMint, slot, supply, entries,
           Exclusions(hs, req.sinkExclusions, SortedKeys(Owners(hs))),
           LockedReport(records, Total(ls), Attributions(ls, SortedKeys(Owners(ls))), custody),
           Reconciliation(Total(hs), Total(entries), sinkTotal)))
  }
}
