/** The published artifact (snapshotter/src/artifact.rs): sealing, self-verification, and what a
    reader of a verified artifact may rely on. */
module SnapshotArtifact {
  import opened Wrappers
  import opened Bytes
  import opened SnapshotModel
  import opened SnapshotLedger
  import opened SnapshotSpec
  import opened SnapshotProperties
  import opened MerkleTree
  import opened MerkleSplit
  import opened MerkleSecurity

  const ARTIFACT_FORMAT_VERSION: U32 := 1

  datatype ArtifactEntry = ArtifactEntry(
    owner: Bytes32, lpBalance: U64, leaf: Bytes32, proof: seq<Bytes32>)

  datatype Artifact = Artifact(
    formatVersion: U32, poolAddress: Bytes32, ammProgramId: Bytes32, lpMint: Bytes32,
    snapshotSlot: U64, lpTotalSupplyAtSnapshot: U64, merkleRoot: Bytes32,
    leafCount: nat, treeDepth: nat, entries: seq<ArtifactEntry>, reconciliation: Reconciliation)

  /** `verify_integrity` adds two `u64` totals without a check; the release profile turns an
      overflow there into a panic. */
  datatype Outcome = Panics | Returns(result: Result<(), SnapshotError>)

  /** The persisted holders, without leaves and proofs. */
  function Holders(entries: seq<ArtifactEntry>): (hs: seq<HolderEntry>)
    ensures |hs| == |entries|
    ensures forall i :: 0 <= i < |hs| ==> hs[i] == HolderEntry(entries[i].owner, entries[i].lpBalance)
  {
    seq(|entries|, i requires 0 <= i < |entries| => HolderEntry(entries[i].owner, entries[i].lpBalance))
  }

  /** Leaf and proof of entry `i` are the ones the tree over the persisted holders has. */
  ghost predicate EntryDerives(h: Hash, entries: seq<ArtifactEntry>, i: nat)
    requires i < |entries|
  {
    && entries[i].leaf == ComputeLeaf(h, entries[i].owner, entries[i].lpBalance)
    && entries[i].proof == PathSiblings(h, Leaves(h, Holders(entries)), i)
  }

  ghost predicate EntriesDerive(h: Hash, entries: seq<ArtifactEntry>, n: nat)
    requires n <= |entries|
  {
    forall i :: 0 <= i < n ==> EntryDerives(h, entries, i)
  }

  ghost predicate Derives(h: Hash, a: Artifact) {
    && a.formatVersion == ARTIFACT_FORMAT_VERSION
    && Canonical(Holders(a.entries))
    && a.merkleRoot == RootOf(h, Holders(a.entries))
    && a.leafCount == |a.entries|
    && a.treeDepth == Halvings(|a.entries|)
    && EntriesDerive(h, a.entries, |a.entries|)
  }

  ghost predicate Reconciles(a: Artifact) {
    && Total(Holders(a.entries)) == a.reconciliation.entriesTotal
    && a.reconciliation.entriesTotal + a.reconciliation.sinkExclusionsTotal ==
       a.reconciliation.enumeratedTotal
    && a.reconciliation.enumeratedTotal == a.lpTotalSupplyAtSnapshot
  }

  // ---------------------------------------------------------------- seal

  function SealedEntries(h: Hash, entries: seq<HolderEntry>): seq<ArtifactEntry> {
    seq(|entries|, i requires 0 <= i < |entries| =>
      ArtifactEntry(entries[i].owner, entries[i].lpBalance,
                    ComputeLeaf(h, entries[i].owner, entries[i].lpBalance),
                    PathSiblings(h, Leaves(h, entries), i)))
  }

  /** What sealing yields: the tree must be the one over the snapshot's own leaf set. */
  function SealOf(h: Hash, snapshot: LpSnapshot, tree: SnapshotMerkleTree): Result<Artifact, SnapshotError>
    requires tree.levels != [] && tree.levels[|tree.levels| - 1] != []
  {
    var own := TreeOf(h, snapshot.entries);
    if own.Err? then Err(own.error)
    else if own.value != tree then
      Err(ArtifactMismatch("the supplied tree does not match the snapshot's leaf set"))
    else
      Ok(Artifact(ARTIFACT_FORMAT_VERSION, snapshot.poolAddress, snapshot.ammProgramId,
        snapshot.lpMint, snapshot.snapshotSlot, snapshot.lpTotalSupplyAtSnapshot, tree.Root(),
        tree.LeafCount(), tree.TreeDepth(), SealedEntries(h, snapshot.entries), snapshot.reconciliation))
  }

  method Seal(h: Hash, snapshot: LpSnapshot, tree: SnapshotMerkleTree)
      returns (r: Result<Artifact, SnapshotError>)
    requires tree.Built(h)
    ensures r == SealOf(h, snapshot, tree)
  {
    var rebuilt := FromEntries(h, snapshot.entries);
    if rebuilt.Err? {
      return Err(rebuilt.error);
    }
    if rebuilt.value != tree {
      return Err(ArtifactMismatch("the supplied tree does not match the snapshot's leaf set"));
    }
    var entries: seq<ArtifactEntry> := [];
    for i := 0 to |snapshot.entries|
      invariant |entries| == i
      invariant forall j :: 0 <= j < i ==> entries[j] == SealedEntries(h, snapshot.entries)[j]
    {
      var e := snapshot.entries[i];
      var proof := Proof(h, tree, i);
      entries := entries + [ArtifactEntry(e.owner, e.lpBalance, tree.Leaf(i).value, proof.value)];
    }
    assert entries == SealedEntries(h, snapshot.entries);
    r := Ok(Artifact(ARTIFACT_FORMAT_VERSION, snapshot.poolAddress, snapshot.ammProgramId,
      snapshot.lpMint, snapshot.snapshotSlot, snapshot.lpTotalSupplyAtSnapshot, tree.Root(),
      tree.LeafCount(), tree.TreeDepth(), entries, snapshot.reconciliation));
  }

  /** Sealing succeeds exactly for a canonical snapshot and a tree that grows from its leaves; the
      artifact then re-derives, over the snapshot's holders, and carries the tree's root and the
      snapshot's own fields. A tree over other leaves is refused as a mismatch. */
  lemma SealIff(h: Hash, s: LpSnapshot, tree: SnapshotMerkleTree)
    requires tree.Built(h)
    ensures var r := SealOf(h, s, tree);
            && (r.Ok? <==> Canonical(s.entries) && tree.levels[0] == Leaves(h, s.entries))
            && (Canonical(s.entries) && tree.levels[0] != Leaves(h, s.entries) ==> r.Err? && r.error.ArtifactMismatch?)
            && (!Canonical(s.entries) ==> r.Err? && Err(r.error) == ValidateEntries(s.entries))
            && (r.Ok? ==>
                  && Derives(h, r.value) && Holders(r.value.entries) == s.entries
                  && r.value.merkleRoot == tree.Root()
                  && r.value.poolAddress == s.poolAddress && r.value.ammProgramId == s.ammProgramId
                  && r.value.lpMint == s.lpMint && r.value.snapshotSlot == s.snapshotSlot
                  && r.value.lpTotalSupplyAtSnapshot == s.lpTotalSupplyAtSnapshot
                  && r.value.reconciliation == s.reconciliation)
  {
    ValidateEntriesIffCanonical(s.entries);
    if Canonical(s.entries) {
      LinkedLevelsAreLevels(h, tree.levels);
      TreeFacts(h, s.entries, TreeOf(h, s.entries).value);
      SealedHolders(h, s.entries);
    }
  }

  // ---------------------------------------------------------------- verify_integrity

  /** The body of the per-entry loop. */
  method VerifyEntry(h: Hash, tree: SnapshotMerkleTree, entries: seq<ArtifactEntry>, i: nat)
      returns (r: Result<(), SnapshotError>)
    requires tree.Built(h) && tree.levels[0] == Leaves(h, Holders(entries)) && i < |entries|
    ensures r.Ok? <==> EntryDerives(h, entries, i)
  {
    if tree.Leaf(i) != Some(entries[i].leaf) {
      return Err(ArtifactMismatch("leaf"));
    }
    var proof := Proof(h, tree, i);
    if proof != Some(entries[i].proof) {
      return Err(ArtifactMismatch("proof"));
    }
    r := Ok(());
  }

  /** The per-entry loop. */
  method VerifyEntries(h: Hash, tree: SnapshotMerkleTree, entries: seq<ArtifactEntry>)
      returns (r: Result<(), SnapshotError>)
    requires tree.Built(h) && tree.levels[0] == Leaves(h, Holders(entries))
    ensures r.Ok? <==> EntriesDerive(h, entries, |entries|)
  {
    for i := 0 to |entries|
      invariant EntriesDerive(h, entries, i)
    {
      r := VerifyEntry(h, tree, entries, i);
      if r.Err? {
        return;
      }
    }
    r := Ok(());
  }

  method SumPersisted(entries: seq<ArtifactEntry>) returns (total: Result<nat, SnapshotError>)
    ensures total == if Total(Holders(entries)) > U128_MAX then Err(Overflow)
                     else Ok(Total(Holders(entries)))
  {
    ghost var hs := Holders(entries);
    var sum: nat := 0;
    for i := 0 to |entries|
      invariant sum == Total(hs[..i]) && sum <= U128_MAX
    {
      assert hs[..i + 1] == hs[..i] + [hs[i]];
      TotalSnoc(hs[..i], hs[i]);
      TotalConcat(hs[..i + 1], hs[i + 1..]);
      assert hs == hs[..i + 1] + hs[i + 1..];
      sum := sum + entries[i].lpBalance;
      if sum > U128_MAX {
        return Err(Overflow);
      }
    }
    assert hs[..|entries|] == hs;
    total := Ok(sum);
  }

  method VerifyReconciliation(a: Artifact) returns (r: Outcome)
    ensures r == Returns(Ok(())) <==> Reconciles(a)
    ensures r == Panics <==>
            Total(Holders(a.entries)) == a.reconciliation.entriesTotal &&
            a.reconciliation.entriesTotal + a.reconciliation.sinkExclusionsTotal > U64_MAX
  {
    var total := SumPersisted(a.entries);
    if total.Err? {
      return Returns(Err(total.error));
    }
    var rec := a.reconciliation;
    if total.value != rec.entriesTotal {
      return Returns(Err(ArtifactMismatch("entries_total")));
    }
    var sum := rec.entriesTotal + rec.sinkExclusionsTotal;
    if sum > U64_MAX {
      return Panics;
    }
    if sum != rec.enumeratedTotal {
      return Returns(Err(ArtifactMismatch("reconciliation identity")));
    }
    if rec.enumeratedTotal != a.lpTotalSupplyAtSnapshot {
      return Returns(Err(ArtifactMismatch("enumerated_total")));
    }
    r := Returns(Ok(()));
  }

  /** Everything re-derives and the entries add up to their total, but the two totals the self-check
      adds do not fit `u64`. */
  ghost predicate PanicsOn(h: Hash, a: Artifact) {
    && Derives(h, a) && Total(Holders(a.entries)) == a.reconciliation.entriesTotal
    && a.reconciliation.entriesTotal + a.reconciliation.sinkExclusionsTotal > U64_MAX
  }

  /** One holder with one token, and a published sink total of `u64::MAX`, whatever the hash. */
  lemma SelfCheckCanPanic(h: Hash)
    ensures var entries := [HolderEntry(1, 1)];
            PanicsOn(h, Artifact(ARTIFACT_FORMAT_VERSION, 0, 0, 0, 0, 1, RootOf(h, entries), 1, Halvings(1),
                                 SealedEntries(h, entries), Reconciliation(1, 1, U64_MAX)))
  {
    var entries := [HolderEntry(1, 1)];
    SealedHolders(h, entries);
    assert entries == [] + entries;
    TotalSnoc([], entries[0]);
  }

  /** The self-check passes exactly the artifacts whose every derived field re-derives and whose
      ledger closes; it fails with an error otherwise, except that two totals adding up past
      `u64` make it panic. */
  method VerifyIntegrity(h: Hash, a: Artifact) returns (r: Outcome)
    ensures r == Returns(Ok(())) <==> Derives(h, a) && Reconciles(a)
    ensures r == Panics <==> PanicsOn(h, a)
  {
    if a.formatVersion != ARTIFACT_FORMAT_VERSION {
      return Returns(Err(ArtifactMismatch("format_version")));
    }
    var entries := Holders(a.entries);
    ValidateEntriesIffCanonical(entries);
    var tree := FromEntries(h, entries);
    if tree.Err? {
      return Returns(Err(tree.error));
    }
    TreeFacts(h, entries, tree.value);
    if tree.value.Root() != a.merkleRoot {
      return Returns(Err(ArtifactMismatch("root")));
    }
    if a.leafCount != |entries| || a.leafCount != tree.value.LeafCount() {
      return Returns(Err(ArtifactMismatch("leaf_count")));
    }
    if a.treeDepth != tree.value.TreeDepth() {
      return Returns(Err(ArtifactMismatch("tree_depth")));
    }
    var checked := VerifyEntries(h, tree.value, a.entries);
    if checked.Err? {
      return Returns(Err(checked.error));
    }
    r := VerifyReconciliation(a);
  }

  lemma TreeFacts(h: Hash, entries: seq<HolderEntry>, tree: SnapshotMerkleTree)
    requires TreeOf(h, entries) == Ok(tree)
    ensures entries != [] && tree.Built(h) && tree.levels[0] == Leaves(h, entries)
    ensures tree.Root() == RootOf(h, entries)
    ensures tree.LeafCount() == |entries| && tree.TreeDepth() == Halvings(|entries|)
  {
    var leaves := Leaves(h, entries);
    LevelsAreBuilt(h, leaves);
    LevelsComputeSplitRoot(h, leaves);
    LevelCount(h, leaves);
  }

  // ---------------------------------------------------------------- end to end

  lemma SealedHolders(h: Hash, entries: seq<HolderEntry>)
    ensures Holders(SealedEntries(h, entries)) == entries
  {
  }

  /** What a reader can put together again from an artifact. */
  function Republished(a: Artifact): LpSnapshot {
    LpSnapshot(a.poolAddress, a.ammProgramId, a.lpMint, a.snapshotSlot, a.lpTotalSupplyAtSnapshot,
               Holders(a.entries), [], LockedReport(0, 0, [], None), a.reconciliation)
  }

  /** The self-check's derivations are complete: they hold exactly of what sealing some snapshot with some
      tree gives. */
  lemma DerivesIffSealed(h: Hash, a: Artifact)
    ensures Derives(h, a) <==>
            exists s: LpSnapshot, tree: SnapshotMerkleTree :: tree.Built(h) && SealOf(h, s, tree) == Ok(a)
  {
    if Derives(h, a) {
      var s := Republished(a);
      ValidateEntriesIffCanonical(s.entries);
      var tree := TreeOf(h, s.entries).value;
      TreeFacts(h, s.entries, tree);
      DerivedEntriesAreSealed(h, a);
      assert tree.Built(h) && SealOf(h, s, tree) == Ok(a);
    }
    forall s: LpSnapshot, tree: SnapshotMerkleTree | tree.Built(h) && SealOf(h, s, tree) == Ok(a)
      ensures Derives(h, a)
    {
      SealIff(h, s, tree);
    }
  }

  lemma DerivedEntriesAreSealed(h: Hash, a: Artifact)
    requires EntriesDerive(h, a.entries, |a.entries|)
    ensures SealedEntries(h, Holders(a.entries)) == a.entries
  {
    forall i | 0 <= i < |a.entries| ensures SealedEntries(h, Holders(a.entries))[i] == a.entries[i] {
      assert EntryDerives(h, a.entries, i);
    }
  }

  /** Build, grow the tree, seal, verify: every snapshot `build` returns goes all the way through. */
  lemma BuiltSnapshotSealsAndVerifies(h: Hash, req: SnapshotRequest, supply: U64, slot: U64,
                                      accounts: seq<TokenAccount>, locks: seq<TokenLockRecord>)
    requires SnapshotOf(req, supply, slot, accounts, locks).Ok?
    ensures var s := SnapshotOf(req, supply, slot, accounts, locks).value;
            var tree := TreeOf(h, s.entries);
            && tree.Ok? && tree.value.Built(h)
            && var sealed := SealOf(h, s, tree.value);
            sealed.Ok? && Derives(h, sealed.value) && Reconciles(sealed.value)
  {
    var s := SnapshotOf(req, supply, slot, accounts, locks).value;
    SnapshotIsExact(req, supply, slot, accounts, locks, 0);
    ValidateEntriesIffCanonical(s.entries);
    TreeFacts(h, s.entries, TreeOf(h, s.entries).value);
    SealedHolders(h, s.entries);
  }

  /** Every proof in an artifact that verifies is accepted by the on-chain verifier for its own
      holder and balance. */
  lemma VerifiedProofsAreAccepted(h: Hash, a: Artifact, i: nat)
    requires Derives(h, a) && i < |a.entries|
    ensures var e := a.entries[i];
            Fold(h, ComputeLeaf(h, e.owner, e.lpBalance), e.proof) == a.merkleRoot
  {
    var leaves := Leaves(h, Holders(a.entries));
    assert EntryDerives(h, a.entries, i);
    EveryProofVerifies(h, leaves, i);
    LevelsComputeSplitRoot(h, leaves);
  }

  /** Two artifacts that verify and publish one root publish the same holders, balances, leaves,
      proofs, count and depth. */
  lemma OneRootOneLeafSet(h: Hash, a: Artifact, b: Artifact) returns (ev: Evidence)
    requires Derives(h, a) && Derives(h, b) && a.merkleRoot == b.merkleRoot
    ensures Sound(h, ev)
    ensures ev.NoCollision? ==>
            a.entries == b.entries && a.leafCount == b.leafCount && a.treeDepth == b.treeDepth
  {
    ev := RootBindsEntries(h, Holders(a.entries), Holders(b.entries));
    if ev.NoCollision? {
      var ha, hb := Holders(a.entries), Holders(b.entries);
      assert |a.entries| == |ha| == |hb| == |b.entries|;
      forall i | 0 <= i < |a.entries| ensures a.entries[i] == b.entries[i] {
        assert ha == hb && ha[i] == hb[i];
        assert EntryDerives(h, a.entries, i) && EntryDerives(h, b.entries, i);
      }
      assert a.entries == b.entries;
    }
  }

  // ---------------------------------------------------------------- claims against a root

  datatype Claim = Claim(holder: Bytes32, balance: U64, proof: seq<Bytes32>)

  function Claimed(claims: seq<Claim>): (hs: seq<HolderEntry>)
    ensures |hs| == |claims|
    ensures forall i :: 0 <= i < |hs| ==> hs[i] == HolderEntry(claims[i].holder, claims[i].balance)
  {
    seq(|claims|, i requires 0 <= i < |claims| => HolderEntry(claims[i].holder, claims[i].balance))
  }

  lemma {:induction false} InWithout(hs: seq<HolderEntry>, owner: Bytes32, e: HolderEntry)
    requires e in hs && e.owner != owner
    ensures e in Without(hs, owner)
  {
    assert hs == hs[..|hs| - 1] + [hs[|hs| - 1]];
    if e in hs[..|hs| - 1] {
      InWithout(hs[..|hs| - 1], owner, e);
    }
  }

  /** Distinct holders drawn from a list sum to no more than the list. */
  lemma {:induction false} SubledgerAtMostTotal(part: seq<HolderEntry>, whole: seq<HolderEntry>)
    requires forall e :: e in part ==> e in whole
    requires forall i, j :: 0 <= i < j < |part| ==> part[i].owner != part[j].owner
    ensures Total(part) <= Total(whole)
  {
    if part != [] {
      var init, last := part[..|part| - 1], part[|part| - 1];
      assert last in whole;
      var i :| 0 <= i < |whole| && whole[i] == last;
      MemberAtMostOwnerTotal(whole, i);
      WithoutTotals(whole, last.owner);
      forall e | e in init ensures e in Without(whole, last.owner) {
        InWithout(whole, last.owner, e);
      }
      SubledgerAtMostTotal(init, Without(whole, last.owner));
    }
  }

  lemma {:induction false} AcceptedClaimsAreEntries(h: Hash, a: Artifact, claims: seq<Claim>)
      returns (ev: Evidence)
    requires Derives(h, a)
    requires forall i :: 0 <= i < |claims| ==>
      Fold(h, ComputeLeaf(h, claims[i].holder, claims[i].balance), claims[i].proof) == a.merkleRoot
    ensures Sound(h, ev)
    ensures ev.NoCollision? ==> forall e :: e in Claimed(claims) ==> e in Holders(a.entries)
  {
    if claims == [] {
      ev := NoCollision;
    } else {
      var init, last := claims[..|claims| - 1], claims[|claims| - 1];
      ev := AcceptedClaimsAreEntries(h, a, init);
      if ev.NoCollision? {
        var i: nat;
        i, ev := FoldedLeafIsAnEntry(h, Holders(a.entries), HolderEntry(last.holder, last.balance), last.proof);
        assert Claimed(claims) == Claimed(init) + [HolderEntry(last.holder, last.balance)];
      }
    }
  }

  /** Solvency of the sealed root: claims by distinct holders that the on-chain verifier accepts
      never add up to more than the LP supply the snapshot was pinned to. */
  lemma AcceptedClaimsNeverExceedSupply(h: Hash, a: Artifact, claims: seq<Claim>) returns (ev: Evidence)
    requires Derives(h, a) && Reconciles(a)
    requires forall i :: 0 <= i < |claims| ==>
      Fold(h, ComputeLeaf(h, claims[i].holder, claims[i].balance), claims[i].proof) == a.merkleRoot
    requires forall i, j :: 0 <= i < j < |claims| ==> claims[i].holder != claims[j].holder
    ensures Sound(h, ev)
    ensures ev.NoCollision? ==> Total(Claimed(claims)) <= a.lpTotalSupplyAtSnapshot
  {
    ev := AcceptedClaimsAreEntries(h, a, claims);
    if ev.NoCollision? {
      SubledgerAtMostTotal(Claimed(claims), Holders(a.entries));
    }
  }
}
