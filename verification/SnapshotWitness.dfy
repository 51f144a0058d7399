/** Inputs on which the snapshot builder does not do what its comments suggest, and when exactly it
    does. */
module SnapshotWitness {
  import opened Wrappers
  import opened Bytes
  import opened SnapshotModel
  import opened SnapshotLedger
  import opened SnapshotSpec
  import opened SnapshotProperties
  import opened SnapshotCustody
  import opened SdkSnapshot

  const CUSTODIAN: Bytes32 := 1
  const LOCKER: Bytes32 := 2
  const SINK: Bytes32 := 3

  const LOCK := TokenLockRecord(20, 0, 5, LOCKER)
  const REQUEST := SnapshotRequest(30, 31, 32, [SINK], [])

  lemma TwoAccounts(a: TokenAccount, b: TokenAccount, owner: Bytes32)
    ensures Holdings([a, b]) == [HolderEntry(a.owner, a.amount), HolderEntry(b.owner, b.amount)]
    ensures Total(Holdings([a, b])) == a.amount + b.amount
    ensures OwnerTotal(Holdings([a, b]), owner) ==
            (if a.owner == owner then a.amount else 0) + if b.owner == owner then b.amount else 0
  {
    var ha, hb := HolderEntry(a.owner, a.amount), HolderEntry(b.owner, b.amount);
    assert [ha, hb] == [ha] + [hb] && [ha] == [] + [ha];
    TotalSnoc([ha], hb);
    TotalSnoc([], ha);
    OwnerTotalSnoc([ha], hb, owner);
    OwnerTotalSnoc([], ha, owner);
  }

  lemma OneLock(l: TokenLockRecord)
    ensures LockHoldings([l]) == [HolderEntry(l.lockOwner, l.currentLockedAmount)]
    ensures Total(LockHoldings([l])) == l.currentLockedAmount && Owners(LockHoldings([l])) == {l.lockOwner}
    ensures OwnerTotal(LockHoldings([l]), l.lockOwner) == l.currentLockedAmount
  {
    var e := HolderEntry(l.lockOwner, l.currentLockedAmount);
    assert LockHoldings([l])[0] == e;
    OneHolding(e);
    OneOwner(e);
  }

  lemma OneHolding(e: HolderEntry)
    ensures Total([e]) == e.lpBalance && OwnerTotal([e], e.owner) == e.lpBalance
  {
    assert [] + [e] == [e];
    TotalSnoc([], e);
    OwnerTotalSnoc([], e, e.owner);
  }

  lemma OneOwner(e: HolderEntry)
    ensures Owners([e]) == {e.owner}
  {
    assert [e][0].owner in Owners([e]);
  }

  lemma LoneCandidate(a: TokenAccount, b: TokenAccount)
    requires a.amount != b.amount
    ensures WithAmount([a, b], a.amount) == [a]
  {
    assert [a, b][..1] == [a] && [a][..0] == [];
    assert WithAmount([a], a.amount) == WithAmount([], a.amount) + [a];
    assert WithAmount([a, b], a.amount) == WithAmount([a], a.amount) + [];
  }

  /** The builder's debug assertion compares what it removes for the custody owner, all the owner
      holds, with the one account it chose, `accounts[k]`. They agree exactly when every other
      account of that owner is empty, and exactly then the closing identity holds. */
  lemma RemovedIsChosenIff(req: SnapshotRequest, accounts: seq<TokenAccount>, locks: seq<TokenLockRecord>)
      returns (k: nat)
    requires Total(Holdings(accounts)) <= U64_MAX && Total(LockHoldings(locks)) <= U64_MAX
    requires var ls := LockHoldings(locks);
             var custody := ResolveCustody(req, accounts, Owners(ls), Total(ls));
             custody.Ok? && custody.value.Some?
    ensures var hs, ls := Holdings(accounts), LockHoldings(locks);
            var custody := ResolveCustody(req, accounts, Owners(ls), Total(ls)).value;
            var chosen := custody.value;
            && k < |accounts|
            && accounts[k] == TokenAccount(chosen.tokenAccount, chosen.owner, chosen.balance)
            && (OwnerTotal(hs, chosen.owner) == chosen.balance <==> OthersEmpty(accounts, k))
            && (Overfull(hs, ls, custody) <==> !OthersEmpty(accounts, k))
  {
    var hs, ls := Holdings(accounts), LockHoldings(locks);
    CustodySettles(req, accounts, locks);
    CustodyHoldsTheLockedTotal(req, accounts, Owners(ls), Total(ls));
    k := ChosenAccount(req, accounts, Owners(ls), Total(ls));
    LoneHoldingIff(hs, k);
    assert LoneHolding(hs, k) <==> OthersEmpty(accounts, k) by {
      forall j | 0 <= j < |accounts| ensures hs[j] == HolderEntry(accounts[j].owner, accounts[j].amount) {
      }
    }
  }

  lemma ChosenAccount(req: SnapshotRequest, accounts: seq<TokenAccount>, lockOwners: set<Bytes32>, locked: U64)
      returns (k: nat)
    requires ResolveCustody(req, accounts, lockOwners, locked).Ok?
    requires ResolveCustody(req, accounts, lockOwners, locked).value.Some?
    ensures var chosen := ResolveCustody(req, accounts, lockOwners, locked).value.value;
            k < |accounts| && accounts[k] == TokenAccount(chosen.tokenAccount, chosen.owner, chosen.balance)
  {
    var chosen := Eligible(WithAmount(accounts, locked), req.custodyOwnerOverrides)[0];
    EligibleIsListed(accounts, locked, req.custodyOwnerOverrides, chosen);
    k :| 0 <= k < |accounts| && accounts[k] == chosen;
  }

  lemma EligibleIsListed(accounts: seq<TokenAccount>, amount: nat, overrides: seq<Bytes32>, a: TokenAccount)
    requires a in Eligible(WithAmount(accounts, amount), overrides)
    ensures a in accounts
  {
    InOwnedByAny(WithAmount(accounts, amount), overrides, a);
    InWithAmount(accounts, amount, a);
  }

  /** No other account of the owner of `accounts[k]` holds anything. */
  ghost predicate OthersEmpty(accounts: seq<TokenAccount>, k: nat)
    requires k < |accounts|
  {
    forall j :: 0 <= j < |accounts| && j != k && accounts[j].owner == accounts[k].owner ==> accounts[j].amount == 0
  }

  /** It can fail: a custodian with the matching account and another one. The build then aborts. */
  lemma CustodianWithTwoAccounts()
    ensures var accounts := [TokenAccount(10, CUSTODIAN, 5), TokenAccount(11, CUSTODIAN, 2)];
            var custody := ResolveCustody(REQUEST, accounts, Owners(LockHoldings([LOCK])), 5);
            && custody.Ok? && custody.value.Some? && custody.value.value.balance == 5
            && OwnerTotal(Holdings(accounts), custody.value.value.owner) == 7
            && var r := SnapshotOf(REQUEST, 7, 0, accounts, [LOCK]);
               r.Err? && r.error.InvariantViolated?
  {
    var a, b := TokenAccount(10, CUSTODIAN, 5), TokenAccount(11, CUSTODIAN, 2);
    TwoAccounts(a, b, CUSTODIAN);
    OneLock(LOCK);
    LoneCandidate(a, b);
    FailureMap(REQUEST, 7, 0, [a, b], [LOCK]);
  }

  /** A declared sink that is also a lock's beneficial owner is in the leaf set. */
  lemma SinkThatLocks()
    ensures var accounts := [TokenAccount(10, CUSTODIAN, 5), TokenAccount(11, SINK, 2)];
            var r := SnapshotOf(REQUEST, 7, 0, accounts, [LOCK.(lockOwner := SINK)]);
            && r.Ok? && SINK in REQUEST.sinkExclusions
            && exists i :: 0 <= i < |r.value.entries| && r.value.entries[i].owner == SINK
  {
    var a, b, l := TokenAccount(10, CUSTODIAN, 5), TokenAccount(11, SINK, 2), LOCK.(lockOwner := SINK);
    TwoAccounts(a, b, CUSTODIAN);
    OneLock(l);
    LoneCandidate(a, b);
    FailureMap(REQUEST, 7, 0, [a, b], [l]);
    assert [l][0].lockOwner == SINK;
    SinkHasEntryIffLockOwner(REQUEST, 7, 0, [a, b], [l], SINK);
  }

  /** A fully withdrawn lock of someone who holds nothing else aborts the build. */
  lemma WithdrawnLockAborts()
    ensures var accounts := [TokenAccount(10, CUSTODIAN, 5), TokenAccount(11, CUSTODIAN, 2)];
            var r := SnapshotOf(REQUEST, 7, 0, accounts, [LOCK.(currentLockedAmount := 0)]);
            r.Err? && r.error.InvariantViolated?
  {
    var a, b, l := TokenAccount(10, CUSTODIAN, 5), TokenAccount(11, CUSTODIAN, 2), LOCK.(currentLockedAmount := 0);
    TwoAccounts(a, b, LOCKER);
    OneLock(l);
    assert LOCKER in Owners(LockHoldings([l]));
    FailureMap(REQUEST, 7, 0, [a, b], [l]);
  }

  lemma HolderAndSink(a: TokenAccount, b: TokenAccount)
    requires a.owner != SINK && b.owner == SINK
    ensures SinkTotal(Holdings([a, b]), [SINK]) == b.amount
  {
    TwoAccounts(a, b, SINK);
    var ha, hb := HolderEntry(a.owner, a.amount), HolderEntry(b.owner, b.amount);
    assert [ha, hb][..1] == [ha] && [ha][..0] == [];
    assert SinkHoldings([ha], [SINK]) == SinkHoldings([], [SINK]) + [];
    assert SinkHoldings([ha, hb], [SINK]) == SinkHoldings([ha], [SINK]) + [hb];
    TotalSnoc([], hb);
    assert [] + [hb] == [hb];
  }

  /** One enumeration, a holder of 5 and a sink of 2: with a supply of 7 the Rust builder succeeds and
      the SDK does not, with a supply of 5 it is the other way round. */
  lemma PipelinesDisagree()
    ensures var accounts := [TokenAccount(10, LOCKER, 5), TokenAccount(11, SINK, 2)];
            && SnapshotOf(REQUEST, 7, 0, accounts, []).Ok? && !SdkAccepts(7, Holdings(accounts), [SINK])
            && SdkAccepts(5, Holdings(accounts), [SINK]) && SnapshotOf(REQUEST, 5, 0, accounts, []).Err?
  {
    var a, b := TokenAccount(10, LOCKER, 5), TokenAccount(11, SINK, 2);
    TwoAccounts(a, b, SINK);
    HolderAndSink(a, b);
    SinksDivideThePipelines(REQUEST, 7, 0, [a, b]);
    SinksDivideThePipelines(REQUEST, 5, 0, [a, b]);
  }

  /** A custodian of 5, a lock of 5 for the holder of the other 2: both pipelines succeed, on different
      lists. */
  lemma LockedPipelinesDiffer()
    ensures var accounts := [TokenAccount(10, CUSTODIAN, 5), TokenAccount(11, LOCKER, 2)];
            var rust := SnapshotOf(REQUEST, 7, 0, accounts, [LOCK]);
            && rust.Ok? && SdkAccepts(7, Holdings(accounts), [SINK])
            && SdkHolders(7, Holdings(accounts), [SINK]) != rust.value.entries
            && OwnerTotal(SdkHolders(7, Holdings(accounts), [SINK]), CUSTODIAN) == 5
            && OwnerTotal(rust.value.entries, CUSTODIAN) == 0
  {
    var a, b := TokenAccount(10, CUSTODIAN, 5), TokenAccount(11, LOCKER, 2);
    TwoAccounts(a, b, CUSTODIAN);
    TwoAccounts(a, b, LOCKER);
    OneLock(LOCK);
    LoneCandidate(a, b);
    FailureMap(REQUEST, 7, 0, [a, b], [LOCK]);
    NoSinkHeld(a, b);
    LocksDivideThePipelines(REQUEST, 7, 0, [a, b], [LOCK]);
  }

  lemma NoSinkHeld(a: TokenAccount, b: TokenAccount)
    requires a.owner != SINK && b.owner != SINK
    ensures Total(NonSink(Holdings([a, b]), [SINK])) == a.amount + b.amount
  {
    TwoAccounts(a, b, SINK);
    var ha, hb := HolderEntry(a.owner, a.amount), HolderEntry(b.owner, b.amount);
    assert [ha, hb][..1] == [ha] && [ha][..0] == [];
    assert SinkHoldings([ha], [SINK]) == SinkHoldings([], [SINK]) + [];
    assert SinkHoldings([ha, hb], [SINK]) == SinkHoldings([ha], [SINK]) + [];
    SinksAndOthers(Holdings([a, b]), [SINK], SINK);
  }

  /** Two accounts hold the locked total, the operator names the owner of the first: it is taken. */
  lemma OverrideIsHonoured()
    ensures var accounts := [TokenAccount(10, CUSTODIAN, 5), TokenAccount(11, SINK, 5)];
            var r := SnapshotOf(SnapshotRequest(30, 31, 32, [], [CUSTODIAN]), 10, 0, accounts, [LOCK]);
            && r.Ok? && r.value.locked.custody == Some(CustodyResolution(10, CUSTODIAN, 5, ExplicitOverride))
  {
    var a, b, req := TokenAccount(10, CUSTODIAN, 5), TokenAccount(11, SINK, 5),
                     SnapshotRequest(30, 31, 32, [], [CUSTODIAN]);
    TwoAccounts(a, b, CUSTODIAN);
    OneLock(LOCK);
    assert OnlyNamed(req, [a, b], 5, 0);
    assert Matches([a, b], 5, 1) && !OnlyMatch([a, b], 5, 0);
    CustodyIff(req, [a, b], Owners(LockHoldings([LOCK])), 5, 0);
    FailureMap(req, 10, 0, [a, b], [LOCK]);
  }
}
