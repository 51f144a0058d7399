/** Which account the builder takes for the custody account, over positions in the enumeration, and
    which of its errors it gives when it takes none. */
module SnapshotCustody {
  import opened Wrappers
  import opened Bytes
  import opened SnapshotModel
  import opened SnapshotLedger
  import opened SnapshotSpec
  import opened SnapshotProperties

  /** Account `k` holds exactly the locked total. */
  predicate Matches(accounts: seq<TokenAccount>, locked: nat, k: nat) {
    k < |accounts| && accounts[k].amount == locked
  }

  /** And its owner is one the operator names. */
  predicate Named(req: SnapshotRequest, accounts: seq<TokenAccount>, locked: nat, k: nat) {
    Matches(accounts, locked, k) && accounts[k].owner in req.custodyOwnerOverrides
  }

  ghost predicate OnlyMatch(accounts: seq<TokenAccount>, locked: nat, k: nat) {
    Matches(accounts, locked, k) && forall j: nat :: Matches(accounts, locked, j) ==> j == k
  }

  ghost predicate OnlyNamed(req: SnapshotRequest, accounts: seq<TokenAccount>, locked: nat, k: nat) {
    Named(req, accounts, locked, k) && forall j: nat :: Named(req, accounts, locked, j) ==> j == k
  }

  /** The custody account: the only match, or the only match whose owner is named. */
  ghost predicate Chosen(req: SnapshotRequest, accounts: seq<TokenAccount>, locked: nat, k: nat) {
    OnlyMatch(accounts, locked, k) || OnlyNamed(req, accounts, locked, k)
  }

  function MatchSet(accounts: seq<TokenAccount>, locked: nat): set<nat> {
    set k: nat | k < |accounts| && Matches(accounts, locked, k)
  }

  function NamedSet(req: SnapshotRequest, accounts: seq<TokenAccount>, locked: nat): set<nat> {
    set k: nat | k < |accounts| && Named(req, accounts, locked, k)
  }

  // ---------------------------------------------------------------- filters count positions

  lemma {:induction false} MatchCount(accounts: seq<TokenAccount>, locked: nat)
    ensures |WithAmount(accounts, locked)| == |MatchSet(accounts, locked)|
  {
    if accounts != [] {
      var init, last := accounts[..|accounts| - 1], |accounts| - 1;
      MatchCount(init, locked);
      assert MatchSet(accounts, locked) ==
             MatchSet(init, locked) + if accounts[last].amount == locked then {last} else {};
    }
  }

  lemma {:induction false} NamedCount(req: SnapshotRequest, accounts: seq<TokenAccount>, locked: nat)
    ensures |OwnedByAny(WithAmount(accounts, locked), req.custodyOwnerOverrides)| ==
            |NamedSet(req, accounts, locked)|
  {
    if accounts != [] {
      var init, last := accounts[..|accounts| - 1], |accounts| - 1;
      NamedCount(req, init, locked);
      assert NamedSet(req, accounts, locked) ==
             NamedSet(req, init, locked) + if Named(req, accounts, locked, last) then {last} else {};
      var kept := WithAmount(init, locked);
      if accounts[last].amount == locked {
        assert WithAmount(accounts, locked) == kept + [accounts[last]];
        assert (kept + [accounts[last]])[..|kept|] == kept;
      } else {
        assert WithAmount(accounts, locked) == kept;
      }
    }
  }

  lemma SoleMember(s: set<nat>, k: nat)
    requires k in s
    ensures |s| == 1 <==> forall j: nat :: j in s ==> j == k
  {
    if forall j: nat :: j in s ==> j == k {
      assert s == {k};
    } else {
      var j: nat :| j in s && j != k;
      assert |{j, k}| == 2 && {j, k} <= s;
      SubsetIsSmaller({j, k}, s);
    }
  }

  lemma SubsetIsSmaller(a: set<nat>, b: set<nat>)
    requires a <= b
    ensures |a| <= |b|
  {
    assert b == a + (b - a);
  }

  /** The account the filters leave, if they leave one, is the one at the chosen position. */
  lemma EligibleIsChosen(req: SnapshotRequest, accounts: seq<TokenAccount>, locked: nat, k: nat)
    requires Chosen(req, accounts, locked, k)
    ensures Eligible(WithAmount(accounts, locked), req.custodyOwnerOverrides) == [accounts[k]]
  {
    var candidates := WithAmount(accounts, locked);
    MatchCount(accounts, locked);
    NamedCount(req, accounts, locked);
    InWithAmount(accounts, locked, accounts[k]);
    if OnlyMatch(accounts, locked, k) {
      SoleMember(MatchSet(accounts, locked), k);
      assert candidates == [candidates[0]];
    } else {
      SoleMember(NamedSet(req, accounts, locked), k);
      var named := OwnedByAny(candidates, req.custodyOwnerOverrides);
      InOwnedByAny(candidates, req.custodyOwnerOverrides, accounts[k]);
      assert named == [named[0]];
      if |candidates| == 1 {
        assert candidates == [candidates[0]];
      }
    }
  }

  lemma EligibleOneIff(req: SnapshotRequest, accounts: seq<TokenAccount>, locked: nat)
    ensures |Eligible(WithAmount(accounts, locked), req.custodyOwnerOverrides)| == 1 <==>
            exists k: nat :: Chosen(req, accounts, locked, k)
    ensures |WithAmount(accounts, locked)| == 0 <==> forall k: nat :: !Matches(accounts, locked, k)
    ensures |WithAmount(accounts, locked)| == 1 <==> exists k: nat :: OnlyMatch(accounts, locked, k)
  {
    MatchCount(accounts, locked);
    NamedCount(req, accounts, locked);
    var matches, named := MatchSet(accounts, locked), NamedSet(req, accounts, locked);
    SoleIff(matches);
    SoleIff(named);
    assert forall k: nat :: k in matches <==> Matches(accounts, locked, k);
    assert forall k: nat :: k in named <==> Named(req, accounts, locked, k);
    assert forall k: nat :: OnlyMatch(accounts, locked, k) <==> Sole(matches, k);
    assert forall k: nat :: OnlyNamed(req, accounts, locked, k) <==> Sole(named, k);
    if |matches| == 1 {
      var k: nat :| Sole(matches, k);
      assert Chosen(req, accounts, locked, k);
    } else if |named| == 1 {
      var k: nat :| Sole(named, k);
      assert Chosen(req, accounts, locked, k);
    }
    if k: nat :| Chosen(req, accounts, locked, k) {
      EligibleIsChosen(req, accounts, locked, k);
    }
  }

  ghost predicate Sole(s: set<nat>, k: nat) {
    k in s && forall j: nat :: j in s ==> j == k
  }

  lemma SoleIff(s: set<nat>)
    ensures |s| == 1 <==> exists k: nat :: Sole(s, k)
    ensures |s| == 0 <==> forall k: nat :: k !in s
  {
    if s != {} {
      var k: nat :| k in s;
      SoleMember(s, k);
      assert |s| == 1 ==> Sole(s, k);
    }
    if k: nat :| Sole(s, k) {
      SoleMember(s, k);
    }
  }

  // ---------------------------------------------------------------- the choice, exactly

  function Resolution(accounts: seq<TokenAccount>, k: nat, how: CustodyMatchMethod): CustodyResolution
    requires k < |accounts|
  {
    CustodyResolution(accounts[k].address, accounts[k].owner, accounts[k].amount, how)
  }

  /** With something locked, custody resolves to account `k` exactly when `k` is chosen and its owner is
      neither a lock owner nor a sink, as an exact match exactly when no other account matches. */
  lemma CustodyIff(req: SnapshotRequest, accounts: seq<TokenAccount>, lockOwners: set<Bytes32>, locked: U64, k: nat)
    requires locked > 0 && k < |accounts|
    ensures var r := ResolveCustody(req, accounts, lockOwners, locked);
            && (r == Ok(Some(Resolution(accounts, k, ExactBalanceMatch))) <==>
                  OnlyMatch(accounts, locked, k) && Free(req, lockOwners, accounts[k].owner))
            && (r == Ok(Some(Resolution(accounts, k, ExplicitOverride))) <==>
                  && OnlyNamed(req, accounts, locked, k) && !OnlyMatch(accounts, locked, k)
                  && Free(req, lockOwners, accounts[k].owner))
  {
    EligibleOneIff(req, accounts, locked);
    if j: nat :| Chosen(req, accounts, locked, j) {
      EligibleIsChosen(req, accounts, locked, j);
      OnlyOneChosen(req, accounts, locked, j, k);
      if m: nat :| OnlyMatch(accounts, locked, m) {
        OnlyOneChosen(req, accounts, locked, j, m);
        assert Matches(accounts, locked, k) ==> k == m;
      }
    } else {
      assert !Chosen(req, accounts, locked, k);
    }
  }

  predicate Free(req: SnapshotRequest, lockOwners: set<Bytes32>, owner: Bytes32) {
    owner !in lockOwners && owner !in req.sinkExclusions
  }

  /** Another position that holds the chosen account's very record would be chosen too. */
  lemma OnlyOneChosen(req: SnapshotRequest, accounts: seq<TokenAccount>, locked: nat, j: nat, k: nat)
    requires Chosen(req, accounts, locked, j) && k < |accounts|
    ensures Chosen(req, accounts, locked, k) || accounts[k] == accounts[j] ==> k == j
    ensures OnlyMatch(accounts, locked, k) ==> OnlyMatch(accounts, locked, j)
  {
    assert Matches(accounts, locked, j);
    if accounts[k] == accounts[j] {
      assert Matches(accounts, locked, k) && (Named(req, accounts, locked, j) <==> Named(req, accounts, locked, k));
    }
  }

  /** And each of its four errors has its condition. */
  lemma CustodyErrors(req: SnapshotRequest, accounts: seq<TokenAccount>, lockOwners: set<Bytes32>, locked: U64)
    ensures var r := ResolveCustody(req, accounts, lockOwners, locked);
            && (r == Ok(None) <==> locked == 0)
            && (locked > 0 ==>
                  && (r == Err(CustodyNotFound(locked)) <==> forall k: nat :: !Matches(accounts, locked, k))
                  && (r == Err(CustodyAmbiguous(locked, |MatchSet(accounts, locked)|)) <==>
                        (exists k: nat :: Matches(accounts, locked, k)) &&
                        forall k: nat :: !Chosen(req, accounts, locked, k))
                  && (forall o: Bytes32 :: r == Err(LockOwnerIsCustody(o)) <==>
                        o in lockOwners && exists k: nat :: Chosen(req, accounts, locked, k) && accounts[k].owner == o)
                  && (r == Err(CustodyExcludedAsSink) <==>
                        exists k: nat :: Chosen(req, accounts, locked, k) &&
                                         accounts[k].owner in req.sinkExclusions && accounts[k].owner !in lockOwners))
  {
    EligibleOneIff(req, accounts, locked);
    MatchCount(accounts, locked);
    if locked > 0 {
      forall k: nat | Chosen(req, accounts, locked, k)
        ensures Eligible(WithAmount(accounts, locked), req.custodyOwnerOverrides) == [accounts[k]]
        ensures Matches(accounts, locked, k)
      {
        EligibleIsChosen(req, accounts, locked, k);
      }
    }
  }

  /** The same of the whole build, past the supply gate and with something locked: its custody errors. */
  lemma BuildCustodyErrors(req: SnapshotRequest, supply: U64, slot: U64, accounts: seq<TokenAccount>,
                           locks: seq<TokenLockRecord>)
    requires Total(Holdings(accounts)) == supply && 0 < Total(LockHoldings(locks)) <= U64_MAX
    ensures var r, locked := SnapshotOf(req, supply, slot, accounts, locks), Total(LockHoldings(locks));
            var lockOwners := Owners(LockHoldings(locks));
            && (r == Err(CustodyNotFound(locked)) <==> forall k: nat :: !Matches(accounts, locked, k))
            && (r == Err(CustodyAmbiguous(locked, |MatchSet(accounts, locked)|)) <==>
                  (exists k: nat :: Matches(accounts, locked, k)) && forall k: nat :: !Chosen(req, accounts, locked, k))
            && (forall o: Bytes32 :: r == Err(LockOwnerIsCustody(o)) <==>
                  o in lockOwners && exists k: nat :: Chosen(req, accounts, locked, k) && accounts[k].owner == o)
            && (r == Err(CustodyExcludedAsSink) <==>
                  exists k: nat :: Chosen(req, accounts, locked, k) &&
                                   accounts[k].owner in req.sinkExclusions && accounts[k].owner !in lockOwners)
  {
    FailureMap(req, supply, slot, accounts, locks);
    CustodyErrors(req, accounts, Owners(LockHoldings(locks)), Total(LockHoldings(locks)));
  }

  /** And what it records when it succeeds: account `k`, chosen and free. */
  lemma BuildTakesChosen(req: SnapshotRequest, supply: U64, slot: U64, accounts: seq<TokenAccount>,
                         locks: seq<TokenLockRecord>) returns (k: nat)
    requires SnapshotOf(req, supply, slot, accounts, locks).Ok? && Total(LockHoldings(locks)) > 0
    ensures var locked, lockOwners := Total(LockHoldings(locks)), Owners(LockHoldings(locks));
            && Chosen(req, accounts, locked, k) && k < |accounts| && Free(req, lockOwners, accounts[k].owner)
            && SnapshotOf(req, supply, slot, accounts, locks).value.locked.custody ==
               Some(Resolution(accounts, k,
                 if OnlyMatch(accounts, locked, k) then ExactBalanceMatch else ExplicitOverride))
  {
    k := ResolvedPosition(req, accounts, Owners(LockHoldings(locks)), Total(LockHoldings(locks)));
  }

  lemma ResolvedPosition(req: SnapshotRequest, accounts: seq<TokenAccount>, lockOwners: set<Bytes32>, locked: U64)
      returns (k: nat)
    requires locked > 0 && ResolveCustody(req, accounts, lockOwners, locked).Ok?
    ensures Chosen(req, accounts, locked, k) && Matches(accounts, locked, k)
    ensures Free(req, lockOwners, accounts[k].owner)
    ensures ResolveCustody(req, accounts, lockOwners, locked) ==
            Ok(Some(Resolution(accounts, k,
              if OnlyMatch(accounts, locked, k) then ExactBalanceMatch else ExplicitOverride)))
  {
    EligibleOneIff(req, accounts, locked);
    k :| Chosen(req, accounts, locked, k);
    EligibleIsChosen(req, accounts, locked, k);
    CustodyIff(req, accounts, lockOwners, locked, k);
  }
}
