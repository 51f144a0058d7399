/** The snapshot data model and the canonical-form validator (snapshotter/src/model.rs). */
module SnapshotModel {
  import opened Wrappers
  import opened Bytes

  datatype HolderEntry = HolderEntry(owner: Bytes32, lpBalance: U64)

  datatype TokenAccount = TokenAccount(address: Bytes32, owner: Bytes32, amount: U64)

  datatype TokenLockRecord = TokenLockRecord(
    address: Bytes32, lockGlobalId: U64, currentLockedAmount: U64, lockOwner: Bytes32)

  datatype ExclusionReason = ZeroBalance | ExplicitSink

  datatype ExcludedBalance = ExcludedBalance(owner: Bytes32, lpBalance: U64, reason: ExclusionReason)

  datatype CustodyMatchMethod = ExactBalanceMatch | ExplicitOverride

  datatype CustodyResolution = CustodyResolution(
    tokenAccount: Bytes32, owner: Bytes32, balance: U64, how: CustodyMatchMethod)

  datatype LockedReport = LockedReport(
    lockRecordsSeen: nat, totalLocked: U64, attributions: seq<HolderEntry>,
    custody: Option<CustodyResolution>)

  datatype Reconciliation = Reconciliation(
    enumeratedTotal: U64, entriesTotal: U64, sinkExclusionsTotal: U64)

  datatype SnapshotRequest = SnapshotRequest(
    poolAddress: Bytes32, ammProgramId: Bytes32, lpMint: Bytes32,
    sinkExclusions: seq<Bytes32>, custodyOwnerOverrides: seq<Bytes32>)

  datatype LpSnapshot = LpSnapshot(
    poolAddress: Bytes32, ammProgramId: Bytes32, lpMint: Bytes32,
    snapshotSlot: U64, lpTotalSupplyAtSnapshot: U64,
    entries: seq<HolderEntry>, exclusions: seq<ExcludedBalance>,
    locked: LockedReport, reconciliation: Reconciliation)

  /** What the message text of `InvariantViolated` distinguishes. */
  datatype Violation =
    | ClosingIdentity(entriesTotal: nat, sinkTotal: nat, enumeratedTotal: nat)
    | NotCanonical(owner: Bytes32)
    | ZeroEntry(owner: Bytes32)
    | ZeroFinalEntry

  datatype SnapshotError =
    | SupplyMismatch(mintSupply: U64, enumeratedTotal: U64)
    | CustodyNotFound(lockedTotal: U64)
    | CustodyAmbiguous(lockedTotal: U64, candidates: nat)
    | LockRecordInvalid(address: Bytes32, reason: string)
    | LockOwnerIsCustody(owner: Bytes32)
    | CustodyExcludedAsSink
    | EmptySnapshot
    | InvariantViolated(violation: Violation)
    | Overflow
    | ArtifactMismatch(reason: string)

  /** Canonical form: non-empty, strictly ascending owners, positive balances. */
  ghost predicate Canonical(entries: seq<HolderEntry>) {
    && entries != []
    && (forall i, j :: 0 <= i < j < |entries| ==> entries[i].owner < entries[j].owner)
    && (forall i :: 0 <= i < |entries| ==> entries[i].lpBalance > 0)
  }

  /** The adjacent-pair scan of `validate_entries`, starting at pair `i`. */
  function CheckPairs(entries: seq<HolderEntry>, i: nat): Result<(), SnapshotError>
    requires i < |entries|
    decreases |entries| - i
  {
    if i + 1 == |entries| then
      if entries[i].lpBalance == 0 then Err(InvariantViolated(ZeroFinalEntry)) else Ok(())
    else if entries[i].owner >= entries[i + 1].owner then
      Err(InvariantViolated(NotCanonical(entries[i].owner)))
    else if entries[i].lpBalance == 0 then
      Err(InvariantViolated(ZeroEntry(entries[i].owner)))
    else
      CheckPairs(entries, i + 1)
  }

  function ValidateEntries(entries: seq<HolderEntry>): Result<(), SnapshotError> {
    if entries == [] then Err(EmptySnapshot) else CheckPairs(entries, 0)
  }

  lemma {:induction false} CheckPairsAccepts(entries: seq<HolderEntry>, i: nat)
    requires i < |entries|
    ensures CheckPairs(entries, i).Ok? <==>
            (forall j :: i <= j < |entries| ==> entries[j].lpBalance > 0) &&
            (forall j :: i <= j < |entries| - 1 ==> entries[j].owner < entries[j + 1].owner)
    ensures CheckPairs(entries, i).Err? ==> CheckPairs(entries, i).error.InvariantViolated?
    decreases |entries| - i
  {
    if i + 1 < |entries| {
      CheckPairsAccepts(entries, i + 1);
    }
  }

  lemma {:induction false} AdjacentOrderIsTotal(entries: seq<HolderEntry>, i: nat, j: nat)
    requires i < j < |entries|
    requires forall k :: 0 <= k < |entries| - 1 ==> entries[k].owner < entries[k + 1].owner
    ensures entries[i].owner < entries[j].owner
    decreases j
  {
    if i + 1 < j {
      AdjacentOrderIsTotal(entries, i, j - 1);
      assert entries[j - 1].owner < entries[j - 1 + 1].owner;
    } else {
      assert entries[i].owner < entries[i + 1].owner;
    }
  }

  /** The adjacent-pair scan accepts exactly the canonical lists: order between neighbours gives
      order, and so uniqueness, between all owners. */
  lemma ValidateEntriesIffCanonical(entries: seq<HolderEntry>)
    ensures ValidateEntries(entries).Ok? <==> Canonical(entries)
    ensures entries == [] ==> ValidateEntries(entries) == Err(EmptySnapshot)
    ensures entries != [] && ValidateEntries(entries).Err? ==>
            ValidateEntries(entries).error.InvariantViolated?
  {
    if entries != [] {
      CheckPairsAccepts(entries, 0);
      if ValidateEntries(entries).Ok? {
        forall i, j | 0 <= i < j < |entries|
          ensures entries[i].owner < entries[j].owner
        {
          AdjacentOrderIsTotal(entries, i, j);
        }
      }
    }
  }
}
