/** What a finished snapshot records beside its leaf set, and what the supply gate says. */
module SnapshotRecord {
  import opened Wrappers
  import opened Bytes
  import opened SnapshotModel
  import opened SnapshotLedger
  import opened SnapshotSpec
  import opened SnapshotProperties

  /** Who leaves the leaf set in the exclusion pass, with how much and why. */
  predicate Excluded(hs: seq<HolderEntry>, sinks: seq<Bytes32>, e: ExcludedBalance) {
    && e.lpBalance == OwnerTotal(hs, e.owner)
    && match e.reason
       case ZeroBalance => e.lpBalance == 0
       case ExplicitSink => e.lpBalance > 0 && e.owner in sinks
  }

  ghost predicate OwnersAscend(es: seq<ExcludedBalance>) {
    forall i, j :: 0 <= i < j < |es| ==> es[i].owner < es[j].owner
  }

  lemma {:induction false} ExclusionsListed(hs: seq<HolderEntry>, sinks: seq<Bytes32>, keys: seq<Bytes32>)
    requires Total(hs) <= U64_MAX && StrictlyAscending(keys)
    ensures var es := Exclusions(hs, sinks, keys);
            && OwnersAscend(es)
            && forall e :: e in es <==> e.owner in keys && Excluded(hs, sinks, e)
  {
    if keys != [] {
      var init, last := keys[..|keys| - 1], keys[|keys| - 1];
      assert keys == init + [last];
      ExclusionsListed(hs, sinks, init);
      OwnerTotalAtMostTotal(hs, last);
      var es := Exclusions(hs, sinks, init);
      assert forall i :: 0 <= i < |es| ==> es[i] in es;
    }
  }

  lemma {:induction false} AttributionsListed(ls: seq<HolderEntry>, keys: seq<Bytes32>)
    requires Total(ls) <= U64_MAX
    ensures var listed := Attributions(ls, keys);
            && |listed| == |keys|
            && forall i :: 0 <= i < |keys| ==>
                 listed[i].owner == keys[i] && listed[i].lpBalance == OwnerTotal(ls, keys[i])
  {
    if keys != [] {
      AttributionsListed(ls, keys[..|keys| - 1]);
      OwnerTotalAtMostTotal(ls, keys[|keys| - 1]);
    }
  }

  /** A finished snapshot names the request's pool, program and mint, the slot and the supply; its
      exclusion ledger lists exactly the owners without a balance and the sinks with one, ascending;
      its report counts the records and gives every lock owner, ascending, what is locked for it. */
  lemma SnapshotRecords(req: SnapshotRequest, supply: U64, slot: U64, accounts: seq<TokenAccount>,
                        locks: seq<TokenLockRecord>)
    requires SnapshotOf(req, supply, slot, accounts, locks).Ok?
    ensures var s := SnapshotOf(req, supply, slot, accounts, locks).value;
            var hs, ls := Holdings(accounts), LockHoldings(locks);
            && s.poolAddress == req.poolAddress && s.ammProgramId == req.ammProgramId && s.lpMint == req.lpMint
            && s.snapshotSlot == slot && s.lpTotalSupplyAtSnapshot == supply
            && s.locked.lockRecordsSeen == |locks| && s.locked.totalLocked == Total(ls)
            && OwnersAscend(s.exclusions)
            && (forall e :: e in s.exclusions <==> e.owner in Owners(hs) && Excluded(hs, req.sinkExclusions, e))
            && Reports(s.locked.attributions, ls)
  {
    var hs, ls := Holdings(accounts), LockHoldings(locks);
    ExclusionsListed(hs, req.sinkExclusions, SortedKeys(Owners(hs)));
    AttributionsListed(ls, SortedKeys(Owners(ls)));
    ReportsIff(ls);
  }

  /** Ascending owners, exactly those of `ls`, each with its total. */
  ghost predicate Reports(report: seq<HolderEntry>, ls: seq<HolderEntry>) {
    && (forall i, j :: 0 <= i < j < |report| ==> report[i].owner < report[j].owner)
    && (forall e :: e in report <==> e.owner in Owners(ls) && e.lpBalance == OwnerTotal(ls, e.owner))
  }

  lemma ReportsIff(ls: seq<HolderEntry>)
    requires Total(ls) <= U64_MAX
    ensures Reports(Attributions(ls, SortedKeys(Owners(ls))), ls)
  {
    var keys := SortedKeys(Owners(ls));
    var report := Attributions(ls, keys);
    AttributionsListed(ls, keys);
    forall e: HolderEntry | e.owner in Owners(ls) && e.lpBalance == OwnerTotal(ls, e.owner) ensures e in report {
      assert e.owner in keys;
      var i :| 0 <= i < |keys| && keys[i] == e.owner;
      assert report[i] == e;
    }
    forall e: HolderEntry | e in report ensures e.owner in Owners(ls) && e.lpBalance == OwnerTotal(ls, e.owner) {
      var i :| 0 <= i < |report| && report[i] == e;
      assert keys[i] in keys;
    }
  }

  /** The supply gate: an enumeration that is not the supply is refused with both numbers, or as an
      overflow when its total does not fit the error's field. */
  lemma SupplyGate(req: SnapshotRequest, supply: U64, slot: U64, accounts: seq<TokenAccount>,
                   locks: seq<TokenLockRecord>)
    ensures var r, total := SnapshotOf(req, supply, slot, accounts, locks), Total(Holdings(accounts));
            && (total != supply <==>
                  || (total > U64_MAX && r == Err(Overflow))
                  || (total <= U64_MAX && r == Err(SupplyMismatch(supply, total))))
  {
    if Total(Holdings(accounts)) == supply {
      FailureMap(req, supply, slot, accounts, locks);
    }
  }
}
